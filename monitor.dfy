/** Monitoring (src/engine/monitor.ts): the events matching a request,
    with a summary that counts them per event type. */
module Monitor {
  import opened Wrappers
  import opened Types
  import opened Store

  /** The filters `monitorEvents` passes on: all of the request's, and its actor. */
  function FiltersOf(request: MonitorRequest): EventFilter {
    EventFilter(request.topic, request.eventTypes, request.from, request.to, Some(request.actor))
  }

  /** How many of `events` have type `t`. */
  function CountOf(events: seq<Event>, t: EventType): nat {
    if events == [] then 0
    else CountOf(events[..|events| - 1], t) + (if events[|events| - 1].eventType == t then 1 else 0)
  }

  /** The per-type counts, with every event type present. */
  function CountByType(events: seq<Event>): map<EventType, nat> {
    map t | t in AllEventTypes :: CountOf(events, t)
  }

  /** The sum of the seven counts of a summary. */
  function SumOfCounts(byType: map<EventType, nat>): nat
    requires AllEventTypes <= byType.Keys
  {
    byType[EntryAdded] + byType[EntryUpdated] + byType[QuestionAsked] + byType[QuestionAnswered]
      + byType[QuestionUnanswered] + byType[QaConfirmed] + byType[AccessDenied]
  }

  /** The per-type counts add up to the number of events. */
  lemma {:induction false} CountsAddUp(events: seq<Event>)
    ensures CountByType(events).Keys == AllEventTypes
    ensures SumOfCounts(CountByType(events)) == |events|
  {
    if events != [] {
      CountsAddUp(events[..|events| - 1]);
      var last := events[|events| - 1].eventType;
      match last
      case EntryAdded => case EntryUpdated => case QuestionAsked => case QuestionAnswered =>
      case QuestionUnanswered => case QaConfirmed => case AccessDenied =>
    }
  }

  /** The event types of `events`, in order. */
  function TypesOf(events: seq<Event>): seq<EventType> {
    seq(|events|, i requires 0 <= i < |events| => events[i].eventType)
  }

  /** A type's count is the number of events of that type, i.e. its
      multiplicity among the events' types (so it does not depend on their
      order), and it is zero exactly when no event has that type. */
  lemma {:induction false} CountIsMultiplicity(events: seq<Event>, t: EventType)
    ensures CountOf(events, t) == multiset(TypesOf(events))[t]
    ensures CountOf(events, t) == 0 <==> forall i :: 0 <= i < |events| ==> events[i].eventType != t
  {
    if events != [] {
      var init := events[..|events| - 1];
      CountIsMultiplicity(init, t);
      assert TypesOf(events) == TypesOf(init) + [events[|events| - 1].eventType];
      assert forall i :: 0 <= i < |init| ==> init[i] == events[i];
    }
  }

  /** Counting one more event adds one to its type's count. */
  lemma CountByTypeSnoc(events: seq<Event>, ev: Event)
    ensures ev.eventType in CountByType(events)
    ensures CountByType(events + [ev])
         == CountByType(events)[ev.eventType := CountByType(events)[ev.eventType] + 1]
  {
    var s := events + [ev];
    assert s[..|s| - 1] == events;
    EventTypesClosed();
  }

  /** The counts before any event is seen: zero for every type. */
  lemma CountByTypeEmpty()
    ensures CountByType([]) == map[
      EntryAdded := 0, EntryUpdated := 0, QuestionAsked := 0, QuestionAnswered := 0,
      QuestionUnanswered := 0, QaConfirmed := 0, AccessDenied := 0]
  {
  }

  /** The `forEach` of `monitorEvents`: starting from zero for every type,
      one more for each event's type. */
  method CountEvents(events: seq<Event>) returns (byType: map<EventType, nat>)
    ensures byType == CountByType(events)
  {
    byType := map[
      EntryAdded := 0, EntryUpdated := 0, QuestionAsked := 0, QuestionAnswered := 0,
      QuestionUnanswered := 0, QaConfirmed := 0, AccessDenied := 0];
    CountByTypeEmpty();
    assert events[..0] == [];
    var i := 0;
    while i < |events|
      invariant 0 <= i <= |events|
      invariant byType == CountByType(events[..i])
    {
      var t := events[i].eventType;
      CountByTypeSnoc(events[..i], events[i]);
      assert events[..i + 1] == events[..i] + [events[i]];
      byType := byType[t := byType[t] + 1];
      i := i + 1;
    }
    assert events[..i] == events;
  }

  /** `monitorEvents`: the matching events (at most 100, newest first) and
      their summary, counted one event at a time. */
  method MonitorEvents(db: SilbenklingDB, request: MonitorRequest) returns (response: MonitorResponse)
    requires db.Valid()
    ensures response.events == EventQuery(db.Events(), FiltersOf(request))
    ensures |response.events| <= EventLimit
    ensures response.summary.total == |response.events|
    ensures response.summary.byType == CountByType(response.events)
    ensures request.actor != "" ==> forall ev :: ev in response.events ==> ev.actor == request.actor
  {
    var events := db.GetEvents(FiltersOf(request));
    EventQuerySpec(db.Events(), FiltersOf(request));
    var byType := CountEvents(events);
    response := MonitorResponse(events, Summary(|events|, byType));
  }
}
