/** Calendar reminders: apps/api/src/modules/calendar/calendar-reminders.ts and
    calendar.service.ts. Times are milliseconds, offsets minutes before the start. */
module Reminders {
  import opened OrderedMap

  const MINUTE: int := 60_000
  const OFFSETS: seq<int> := [1440, 600, 300, 30, 15, 5, 1]

  // ---- which reminder is due ---------------------------------------------------

  /** The moment of an offset has come and it was not sent. */
  predicate IsDue(startsAt: int, now: int, sent: seq<int>, offset: int) {
    startsAt - offset * MINUTE <= now && offset !in sent
  }

  function FilterDue(offsets: seq<int>, startsAt: int, now: int, sent: seq<int>): (r: seq<int>)
    ensures forall o :: o in r <==> o in offsets && IsDue(startsAt, now, sent, o)
  {
    if offsets == [] then []
    else
      var rest := FilterDue(offsets[1..], startsAt, now, sent);
      if IsDue(startsAt, now, sent, offsets[0]) then [offsets[0]] + rest else rest
  }

  function Least(xs: seq<int>): (m: int)
    requires xs != []
    ensures m in xs && forall x :: x in xs ==> m <= x
  {
    if |xs| == 1 then xs[0]
    else
      var m := Least(xs[1..]);
      assert forall x :: x in xs ==> x == xs[0] || x in xs[1..];
      if xs[0] < m then xs[0] else m
  }

  datatype Due = Due(offset: int, markSent: seq<int>)

  function DueReminder(startsAt: int, now: int, sent: seq<int>): Option<Due> {
    if startsAt <= now then None
    else
      var due := FilterDue(OFFSETS, startsAt, now, sent);
      if due == [] then None else Some(Due(Least(due), due))
  }

  /** A reminder is due exactly when the event has not started and some offset
      has come unsent; the one that goes out is the closest such to the start. */
  lemma DueReminderSpec(startsAt: int, now: int, sent: seq<int>)
    ensures DueReminder(startsAt, now, sent).Some? <==>
      now < startsAt && exists o :: o in OFFSETS && IsDue(startsAt, now, sent, o)
    ensures DueReminder(startsAt, now, sent).Some? ==>
      var d := DueReminder(startsAt, now, sent).value;
      && d.offset in OFFSETS && IsDue(startsAt, now, sent, d.offset)
      && (forall o :: o in OFFSETS && IsDue(startsAt, now, sent, o) ==> d.offset <= o)
      && (forall o :: o in d.markSent <==> o in OFFSETS && IsDue(startsAt, now, sent, o))
  {
    var due := FilterDue(OFFSETS, startsAt, now, sent);
    if due != [] { assert due[0] in due; }
  }

  // ---- one event -----------------------------------------------------------------

  /** An event row: `eligible` is `remind AND NOT done` for a live, active user. */
  datatype Event = Event(startsAt: int, sent: seq<int>, eligible: bool)

  /** The SELECT of a run. */
  predicate Selected(e: Event, now: int) {
    e.eligible && now < e.startsAt <= now + 1441 * MINUTE
  }

  /** The window of the SELECT drops no event with a due reminder. */
  lemma WindowKeepsDueEvents(e: Event, now: int)
    requires e.eligible && DueReminder(e.startsAt, now, e.sent).Some?
    ensures Selected(e, now)
  {
    DueReminderSpec(e.startsAt, now, e.sent);
  }

  function Without(sent: seq<int>, marks: seq<int>): (r: seq<int>)
    ensures forall o :: o in r <==> o in sent && o !in marks
  {
    if sent == [] then []
    else
      var rest := Without(sent[1..], marks);
      if sent[0] in marks then rest else [sent[0]] + rest
  }

  predicate Overlap(xs: seq<int>, ys: seq<int>) {
    exists i :: 0 <= i < |xs| && xs[i] in ys
  }

  /** The guarded UPDATE: the row's claimed form, or none when it matches no row. */
  function ClaimRow(e: Event, startsAt: int, marks: seq<int>): Option<Event> {
    if e.eligible && e.startsAt == startsAt && !Overlap(e.sent, marks) then Some(e.(sent := e.sent + marks)) else None
  }

  /** The hand-back, which looks at neither the start nor the eligibility. */
  function ReleaseRow(e: Event, marks: seq<int>): Event {
    e.(sent := Without(e.sent, marks))
  }

  /** The start and the sent set as the edit form saves them. */
  function SaveStart(e: Event, startsAt: int): Event {
    if e.startsAt == startsAt then e else e.(startsAt := startsAt, sent := [])
  }

  /** What an undisturbed run does to one event, and the offset it delivers. */
  function TickEvent(e: Event, now: int, delivers: bool): (Event, Option<int>) {
    if !Selected(e, now) then (e, None)
    else
      match DueReminder(e.startsAt, now, e.sent)
      case None => (e, None)
      case Some(due) =>
        match ClaimRow(e, e.startsAt, due.markSent)
        case None => (e, None)
        case Some(claimed) =>
          if delivers then (claimed, Some(due.offset)) else (ReleaseRow(claimed, due.markSent), None)
  }

  /** The events a run delivers a reminder for, among `ids`. */
  function Served(events: map<nat, Event>, ids: set<nat>, now: int, failing: set<nat>): set<nat> {
    set id | id in ids && id in events && TickEvent(events[id], now, id !in failing).1.Some?
  }

  lemma ServedNext(events: map<nat, Event>, ids: set<nat>, id: nat, now: int, failing: set<nat>)
    requires id in events && id !in ids
    ensures |Served(events, ids + {id}, now, failing)|
      == |Served(events, ids, now, failing)| + if TickEvent(events[id], now, id !in failing).1.Some? then 1 else 0
  {
    hide TickEvent;
    var s, t := Served(events, ids, now, failing), Served(events, ids + {id}, now, failing);
    if TickEvent(events[id], now, id !in failing).1.Some? { assert t == s + {id}; } else { assert t == s; }
  }

  lemma UnselectedUntouched(events: map<nat, Event>, ids: set<nat>, now: int, failing: set<nat>)
    requires ids <= events.Keys && forall id :: id in events && id !in ids ==> !Selected(events[id], now)
    ensures forall id :: id in events && id !in ids ==> TickEvent(events[id], now, id !in failing) == (events[id], None)
    ensures Served(events, ids, now, failing) == Served(events, events.Keys, now, failing)
  {
    forall id | id in events && id !in ids ensures TickEvent(events[id], now, id !in failing) == (events[id], None) {}
  }

  class CalendarReminders {
    var events: map<nat, Event>

    constructor ()
      ensures events == map[]
    {
      events := map[];
    }

    /** One turn of the loop: claim, deliver, and hand back when the email fails. */
    method RunOne(id: nat, now: int, delivers: bool) returns (sent: bool)
      requires id in events && Selected(events[id], now)
      modifies this
      ensures events == old(events)[id := TickEvent(old(events)[id], now, delivers).0]
      ensures sent == TickEvent(old(events)[id], now, delivers).1.Some?
    {
      hide DueReminder, ClaimRow, ReleaseRow, Selected;
      sent := false;
      var row := events[id];
      var due := DueReminder(row.startsAt, now, row.sent);
      if due.Some? {
        var claimed := ClaimRow(events[id], row.startsAt, due.value.markSent);
        if claimed.Some? {
          events := events[id := claimed.value];
          if delivers {
            sent := true;
          } else {
            events := events[id := ReleaseRow(events[id], due.value.markSent)];
          }
        }
      }
    }

    /** `CalendarReminderService.run`, alone: `failing` are the events whose email fails. */
    method Run(now: int, failing: set<nat>) returns (sent: nat)
      modifies this
      ensures events.Keys == old(events).Keys
      ensures forall id :: id in old(events) ==> events[id] == TickEvent(old(events)[id], now, id !in failing).0
      ensures sent == |Served(old(events), old(events).Keys, now, failing)|
    {
      hide TickEvent, DueReminder, ClaimRow, ReleaseRow, Selected;
      ghost var before := events;
      sent := 0;
      var todo := set id | id in events && Selected(events[id], now);
      ghost var done: set<nat> := {};
      while todo != {}
        invariant events.Keys == before.Keys && done !! todo && done <= before.Keys
        invariant forall id :: id in todo ==> id in before && Selected(before[id], now)
        invariant forall id :: id in before && id !in done && id !in todo ==> !Selected(before[id], now)
        invariant forall id :: id in before && id !in done ==> events[id] == before[id]
        invariant forall id :: id in done ==> events[id] == TickEvent(before[id], now, id !in failing).0
        invariant sent == |Served(before, done, now, failing)|
        decreases |todo|
      {
        var id :| id in todo;
        todo := todo - {id};
        var one := RunOne(id, now, id !in failing);
        ServedNext(before, done, id, now, failing);
        done := done + {id};
        sent := sent + if one then 1 else 0;
      }
      UnselectedUntouched(before, done, now, failing);
    }

    /** `CalendarService.update` with a start time; false when there is no such event. */
    method Update(id: nat, startsAt: int) returns (found: bool)
      modifies this
      ensures found == (id in old(events))
      ensures events == if found then old(events)[id := SaveStart(old(events)[id], startsAt)] else old(events)
    {
      found := id in events;
      if found { events := events[id := SaveStart(events[id], startsAt)]; }
    }
  }

  /** Written out: the offset's moment has come, the start has not, and it was not sent. */
  ghost predicate DueAt(row: Event, now: int, o: int) {
    o in [1440, 600, 300, 30, 15, 5, 1] && now < row.startsAt <= now + o * 60_000 && o !in row.sent
  }

  lemma DueInNumbers(row: Event, now: int)
    ensures var due := DueReminder(row.startsAt, now, row.sent);
      && (due.Some? <==> exists o :: DueAt(row, now, o))
      && (due.Some? ==> DueAt(row, now, due.value.offset))
      && (due.Some? ==> forall o :: DueAt(row, now, o) ==> due.value.offset <= o)
      && (due.Some? ==> forall o :: o in due.value.markSent <==> DueAt(row, now, o))
  {
    hide DueReminder;
    DueReminderSpec(row.startsAt, now, row.sent);
    if now < row.startsAt {
      forall o ensures DueAt(row, now, o) <==> o in OFFSETS && IsDue(row.startsAt, now, row.sent, o) {}
    }
  }

  /** A tick delivers an offset exactly when the event is eligible, the email goes
      out, and the offset is the closest of those that are due. A delivered or
      undelivered tick changes nothing but the sent set, which gains exactly
      the due offsets when something is delivered and is as it was otherwise. */
  lemma TickDeliversIff(e: Event, now: int, delivers: bool, o: int)
    ensures var (after, offset) := TickEvent(e, now, delivers);
      && (offset == Some(o) <==>
            e.eligible && delivers && DueAt(e, now, o) && forall p :: DueAt(e, now, p) ==> o <= p)
      && after.startsAt == e.startsAt && after.eligible == e.eligible
      && (o in after.sent <==> o in e.sent || (e.eligible && delivers && DueAt(e, now, o)))
  {
    hide DueReminder, IsDue;
    DueInNumbers(e, now);
    DueReminderSpec(e.startsAt, now, e.sent);
    if e.eligible && DueReminder(e.startsAt, now, e.sent).Some? {
      WindowKeepsDueEvents(e, now);
      UndisturbedClaim(e, now);
    }
  }

  /** An eligible event always wins its own undisturbed claim. */
  lemma UndisturbedClaim(e: Event, now: int)
    requires DueReminder(e.startsAt, now, e.sent).Some? && e.eligible
    ensures ClaimRow(e, e.startsAt, DueReminder(e.startsAt, now, e.sent).value.markSent).Some?
  {
    DueReminderSpec(e.startsAt, now, e.sent);
  }

  // ---- one worker, any number of ticks -----------------------------------------------

  datatype Step = Tick(now: int, delivers: bool) | Save(startsAt: int) | SetEligible(eligible: bool)

  /** An event and the offsets delivered for its present start time, in order. */
  datatype History = History(event: Event, delivered: seq<int>)

  function After(h: History, step: Step): History {
    match step
    case Tick(now, delivers) =>
      var (e, offset) := TickEvent(h.event, now, delivers);
      History(e, if offset.Some? then h.delivered + [offset.value] else h.delivered)
    case Save(startsAt) =>
      History(SaveStart(h.event, startsAt), if startsAt == h.event.startsAt then h.delivered else [])
    case SetEligible(eligible) => h.(event := h.event.(eligible := eligible))
  }

  function AfterAll(h: History, steps: seq<Step>): History {
    if steps == [] then h else After(AfterAll(h, steps[..|steps| - 1]), steps[|steps| - 1])
  }

  ghost predicate UpwardClosed(sent: seq<int>) {
    forall o, p :: o in sent && p in OFFSETS && p > o ==> p in sent
  }

  ghost predicate Decreasing(xs: seq<int>) {
    forall i, j :: 0 <= i < j < |xs| ==> xs[j] < xs[i]
  }

  /** What every undisturbed history keeps. */
  ghost predicate Orderly(h: History) {
    && UpwardClosed(h.event.sent)
    && Decreasing(h.delivered)
    && forall o :: o in h.delivered ==> o in h.event.sent && o in OFFSETS
  }

  /** What a tick sends is unsent, for a moment that has come before the start,
      closer to the start than anything sent, and the closest that has come. */
  lemma SentIsClosest(e: Event, now: int)
    requires UpwardClosed(e.sent) && DueReminder(e.startsAt, now, e.sent).Some?
    ensures var o := DueReminder(e.startsAt, now, e.sent).value.offset;
      && o in OFFSETS && o !in e.sent && now < e.startsAt <= now + o * MINUTE
      && (forall p :: p in OFFSETS && p < o ==> now < e.startsAt - p * MINUTE)
      && (forall p :: p in e.sent ==> o < p)
  {
    hide DueReminder;
    DueReminderSpec(e.startsAt, now, e.sent);
    var due := DueReminder(e.startsAt, now, e.sent).value;
    forall p | p in OFFSETS && p < due.offset ensures now < e.startsAt - p * MINUTE {}
  }

  /** Marking and delivering keeps the history orderly, and so does handing back. */
  lemma ClaimKeepsOrder(h: History, due: Due, now: int)
    requires Orderly(h) && due.offset in OFFSETS && due.offset in due.markSent
    requires forall o :: o in due.markSent <==> o in OFFSETS && IsDue(h.event.startsAt, now, h.event.sent, o)
    requires forall p :: p in h.event.sent ==> due.offset < p
    ensures var claimed := h.event.(sent := h.event.sent + due.markSent);
      && Orderly(History(claimed, h.delivered + [due.offset]))
      && Orderly(History(ReleaseRow(claimed, due.markSent), h.delivered))
  {
    MarkedUpwardClosed(h.event.sent, due.markSent, h.event.startsAt, now);
    hide IsDue, UpwardClosed, Without;
    var longer := h.delivered + [due.offset];
    forall i | 0 <= i < |h.delivered| ensures due.offset < longer[i] {
      assert longer[i] == h.delivered[i] && h.delivered[i] in h.delivered;
    }
  }

  /** One tick keeps the history orderly and forgets nothing that was sent. */
  lemma TickKeepsOrder(h: History, now: int, delivers: bool)
    requires Orderly(h)
    ensures Orderly(After(h, Tick(now, delivers)))
    ensures forall o :: o in h.event.sent ==> o in After(h, Tick(now, delivers)).event.sent
  {
    hide DueReminder, UpwardClosed, Decreasing, Selected;
    var e := h.event;
    DueReminderSpec(e.startsAt, now, e.sent);
    if DueReminder(e.startsAt, now, e.sent).Some? {
      SentIsClosest(e, now);
      ClaimKeepsOrder(h, DueReminder(e.startsAt, now, e.sent).value, now);
    }
  }

  lemma MarkedUpwardClosed(sent: seq<int>, marks: seq<int>, startsAt: int, now: int)
    requires UpwardClosed(sent)
    requires forall o :: o in marks <==> o in OFFSETS && IsDue(startsAt, now, sent, o)
    ensures UpwardClosed(sent + marks)
    ensures UpwardClosed(Without(sent + marks, marks))
  {
    forall o, p | o in sent + marks && p in OFFSETS && p > o ensures p in sent + marks {
      if o in marks { assert startsAt - p * MINUTE <= now; }
    }
    var back := Without(sent + marks, marks);
    forall o ensures o in back <==> o in sent {}
  }

  /** For one worker, whatever the tick times, failures, saves and opt-outs: the
      sent set is upward closed and the offsets delivered for the present start
      strictly decrease, so there are at most seven of them. */
  lemma {:induction false} DeliveriesDecrease(h: History, steps: seq<Step>)
    requires Orderly(h)
    ensures Orderly(AfterAll(h, steps)) && |AfterAll(h, steps).delivered| <= 7
  {
    var now := AfterAll(h, steps);
    if steps != [] {
      var before := AfterAll(h, steps[..|steps| - 1]);
      DeliveriesDecrease(h, steps[..|steps| - 1]);
      match steps[|steps| - 1]
      case Tick(t, delivers) => TickKeepsOrder(before, t, delivers);
      case Save(_) =>
      case SetEligible(_) =>
    }
    DecreasingIsShort(now.delivered);
  }

  /** Whatever is marked as sent, a reminder at least as close to the start went out for it. */
  ghost predicate Reminded(h: History) {
    forall o :: o in h.event.sent ==> exists d :: d in h.delivered && d <= o
  }

  lemma TickReminds(h: History, now: int, delivers: bool)
    requires Reminded(h)
    ensures Reminded(After(h, Tick(now, delivers)))
  {
    hide DueReminder, Selected;
    var e := h.event;
    DueReminderSpec(e.startsAt, now, e.sent);
    var t := After(h, Tick(now, delivers));
    var (after, offset) := TickEvent(e, now, delivers);
    forall o | o in t.event.sent ensures exists d :: d in t.delivered && d <= o {
      TickDeliversIff(e, now, delivers, o);
      if o in e.sent {
        var d :| d in h.delivered && d <= o;
        assert d in t.delivered;
      } else {
        DueInNumbers(e, now);
        var due := DueReminder(e.startsAt, now, e.sent).value;
        TickDeliversIff(e, now, delivers, due.offset);
        assert due.offset in t.delivered && due.offset <= o;
      }
    }
  }

  /** No history marks an offset as sent without a reminder going out for it, or
      for a moment closer to the start. */
  lemma {:induction false} MarkedIsReminded(h: History, steps: seq<Step>)
    requires Reminded(h)
    ensures Reminded(AfterAll(h, steps))
  {
    hide Reminded, TickEvent;
    if steps != [] {
      var before := AfterAll(h, steps[..|steps| - 1]);
      MarkedIsReminded(h, steps[..|steps| - 1]);
      match steps[|steps| - 1]
      case Tick(t, delivers) => TickReminds(before, t, delivers);
      case Save(startsAt) => SaveReminds(before, startsAt);
      case SetEligible(eligible) => OptOutReminds(before, eligible);
    }
  }

  lemma SaveReminds(h: History, startsAt: int)
    requires Reminded(h)
    ensures Reminded(After(h, Save(startsAt)))
  {
  }

  lemma OptOutReminds(h: History, eligible: bool)
    requires Reminded(h)
    ensures Reminded(After(h, SetEligible(eligible)))
  {
  }

  /** The offset at a position is no more than the list's. */
  lemma {:induction false} AtMostOffset(xs: seq<int>, i: nat)
    requires Decreasing(xs) && (forall x :: x in xs ==> x in OFFSETS) && i < |xs| && i < 7
    ensures xs[i] <= OFFSETS[i]
  {
    assert xs[i] in xs && xs[i] in OFFSETS;
    if i > 0 { AtMostOffset(xs, i - 1); }
  }

  lemma DecreasingIsShort(xs: seq<int>)
    requires Decreasing(xs) && forall x :: x in xs ==> x in OFFSETS
    ensures |xs| <= 7
  {
    if |xs| > 7 {
      assert xs[7] in xs && xs[7] < xs[6];
      AtMostOffset(xs, 6);
    }
  }

  lemma {:induction false} AfterMore(h: History, steps: seq<Step>, more: seq<Step>)
    ensures AfterAll(h, steps + more) == AfterAll(AfterAll(h, steps), more)
    ensures |more| == 1 ==> AfterAll(h, steps + more) == After(AfterAll(h, steps), more[0])
  {
    if more == [] {
      assert steps + more == steps;
    } else {
      AfterMore(h, steps, more[..|more| - 1]);
      assert (steps + more)[..|steps + more| - 1] == steps + more[..|more| - 1];
    }
  }

  /** Saving the start an event has, anywhere in a history and however it goes on,
      changes neither what is sent later nor what was: the edit form, which
      always sends the start, never makes a reminder go out again. */
  lemma ResavingNeverResends(h: History, steps: seq<Step>, more: seq<Step>)
    ensures var save := Save(AfterAll(h, steps).event.startsAt);
      AfterAll(h, steps + [save] + more) == AfterAll(h, steps + more)
  {
    var save := Save(AfterAll(h, steps).event.startsAt);
    AfterMore(h, steps, more);
    AfterMore(h, steps + [save], more);
    assert (steps + [save])[..|steps|] == steps;
    assert AfterAll(h, steps + [save]) == AfterAll(h, steps);
  }
}
