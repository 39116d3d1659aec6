/** The browser-side reminders of the calendar page: the arming pass that
    schedules one timer per upcoming event, and the notification → follow-up
    → snooze cycle each timer starts. Timers are explicit records with a due
    time; the page's event loop is the `Tick` transition, which runs a timer
    with the least due time, and `Advance` lets time pass before a user
    action. The permission check and the user's clicks are inputs. */
module Notifications {
  import opened Wrappers
  import opened Seqs
  import opened Runtime
  import opened Entities

  const FollowUpDelay: int := 10000
  const SnoozeDelay: int := 5 * 60 * 1000
  const TitlePrefix: string := "Event: "
  const DefaultBody: string := "Your scheduled event is now."
  const DefaultIcon: string := "/calendrix-icon.png"
  const SnoozeTitle: string := "Snooze event?"

  /** The largest delay a browser's `setTimeout` honours, 2^31 - 1 ms. */
  const MaxDelay: int := 0x7FFF_FFFF

  /** The delay a browser's `setTimeout` applies when asked for `d` ms: the
      HTML timer steps take the delay as a WebIDL `long`, so `d` wraps modulo
      2^32 into a signed 32-bit value, and a negative value becomes 0. */
  function TimerDelay(d: int): (r: nat)
    ensures r <= MaxDelay
  {
    var m := d % 0x1_0000_0000;
    if m <= MaxDelay then m else 0
  }

  /** The delay the corrected arming pass asks for: the time left, capped at
      `MaxDelay`; a timer that fires before the start re-arms for the rest. */
  function CappedDelay(d: int): int {
    if d > MaxDelay then MaxDelay else d
  }

  /** A desktop notification for an event. */
  datatype Notice = Notice(event: Event, title: string, body: string, icon: string)

  /** The snooze prompt that replaces an unanswered notification; it stays
      on screen until clicked. */
  datatype Prompt = Prompt(event: Event, title: string, body: string, icon: string)

  /** What a pending `setTimeout` will do: show the event's notification once
      the clock has reached `at` (armed by the page; earlier it arms again for
      the rest), show it at once (a snooze), or check on notification `serial`. */
  datatype TimerKind = Arming(event: Event, at: int) | FollowUp(event: Event, serial: nat) | Snoozed(event: Event)

  datatype Timer = Timer(due: int, kind: TimerKind)

  /** The page's reminder state: the clock, pending timers, open
      notifications by serial, the `activeNotifications` map from event id
      to the serial last shown for it, open snooze prompts, and the next
      serial to hand out. */
  datatype State = State(
    clock: int,
    timers: seq<Timer>,
    shown: map<nat, Notice>,
    active: map<string, nat>,
    prompts: seq<Prompt>,
    next: nat)

  /** The `checkNotificationsPermission` decision: unsupported browsers and a
      denied permission say no; an undecided permission asks the user. */
  datatype Permission = Granted | Denied | Undecided

  function HasPermission(supported: bool, current: Permission, answer: Permission): bool {
    if !supported then false
    else if current == Granted then true
    else if current != Denied then answer == Granted
    else false
  }

  /** Events that get an arming timer: a start time that parses and lies after `now`. */
  predicate Upcoming(p: Platform, now: int, e: Event) {
    p.parseDate(e.startTime).Some? && p.parseDate(e.startTime).value > now
  }

  /** The arming pass as the page writes it: for each upcoming event in list
      order, `setTimeout(show, startTime - now)`. The callback shows the
      notification whenever it runs, so the timer's target is its own due
      time, which the browser's delay conversion may put before the start. */
  function ArmAsWritten(p: Platform, events: seq<Event>, now: int): seq<Timer>
    decreases |events|
  {
    if |events| == 0 then []
    else
      var rest := ArmAsWritten(p, events[1..], now);
      var t := p.parseDate(events[0].startTime);
      if t.Some? && t.value > now then
        var due := now + TimerDelay(t.value - now);
        [Timer(due, Arming(events[0], due))] + rest
      else rest
  }

  /** The corrected arming pass: for each upcoming event in list order, a
      timer aimed at its start after at most `MaxDelay` ms. */
  function Arm(p: Platform, events: seq<Event>, now: int): seq<Timer>
    decreases |events|
  {
    if |events| == 0 then []
    else
      var rest := Arm(p, events[1..], now);
      var t := p.parseDate(events[0].startTime);
      if t.Some? && t.value > now then [Timer(now + TimerDelay(CappedDelay(t.value - now)), Arming(events[0], t.value))] + rest
      else rest
  }

  /** The timers the previous pass left running that are not its own. */
  function NotArming(timers: seq<Timer>): seq<Timer> {
    Filter((tm: Timer) => !tm.kind.Arming?, timers)
  }

  /** The effect re-running on a new event list, as the page writes it: the
      previous pass's timers are cleared and the page's own pass arms.
      Follow-up and snooze timers are not tracked by the effect and keep
      running. */
  function RebuildAsWritten(p: Platform, s: State, events: seq<Event>): State {
    s.(timers := NotArming(s.timers) + ArmAsWritten(p, events, s.clock))
  }

  /** The same effect with the corrected arming pass. */
  function Rebuild(p: Platform, s: State, events: seq<Event>): State {
    s.(timers := NotArming(s.timers) + Arm(p, events, s.clock))
  }

  /** Unmounting the page closes the notifications `activeNotifications`
      holds and clears the arming timers. */
  function Unmount(s: State): State {
    s.(shown := map n | n in s.shown && n !in s.active.Values :: s.shown[n],
       active := map[],
       timers := NotArming(s.timers))
  }

  function MakeNotice(e: Event): Notice {
    Notice(e, TitlePrefix + e.title,
           if Truthy(e.description) then e.description.value else DefaultBody,
           if Truthy(e.imageURL) then e.imageURL.value else DefaultIcon)
  }

  function MakePrompt(e: Event): Prompt {
    Prompt(e, SnoozeTitle, "Click to snooze \"" + e.title + "\" for 5 minutes", DefaultIcon)
  }

  /** `showEventNotification(e)` once the permission check has answered. */
  function ShowNotification(s: State, e: Event, permitted: bool): State {
    if !permitted then s
    else
      var n := s.next;
      s.(shown := s.shown[n := MakeNotice(e)],
         active := s.active[e.id := n],
         next := n + 1,
         timers := s.timers + [Timer(s.clock + FollowUpDelay, FollowUp(e, n))])
  }

  /** Notification `n` is clicked or closed: its close handler deletes the
      map entry under its event's id, whatever serial that entry holds. */
  function Close(s: State, n: nat): State {
    if n in s.shown then
      s.(shown := s.shown - {n}, active := s.active - {s.shown[n].event.id})
    else s
  }

  /** The follow-up of notification `n`: if the event still has an active
      entry, notification `n` is closed and a snooze prompt appears. */
  function FollowUpDue(s: State, e: Event, n: nat): State {
    if e.id in s.active then
      var s1 := Close(s, n);
      s1.(prompts := s1.prompts + [MakePrompt(e)])
    else s
  }

  /** Time passes without a timer coming due, up to the moment `t` of the
      user's next action. */
  function Advance(s: State, t: int): State
    requires s.clock <= t && forall i :: 0 <= i < |s.timers| ==> t <= s.timers[i].due
  {
    s.(clock := t)
  }

  /** The user closes snooze prompt `k` without clicking it: the prompt has
      no close handler, so nothing is scheduled. */
  function DismissPrompt(s: State, k: nat): State
    requires k < |s.prompts|
  {
    s.(prompts := s.prompts[..k] + s.prompts[k + 1..])
  }

  /** Clicking snooze prompt `k` closes it and schedules the event again. */
  function ClickPrompt(s: State, k: nat): State
    requires k < |s.prompts|
  {
    s.(prompts := s.prompts[..k] + s.prompts[k + 1..],
       timers := s.timers + [Timer(s.clock + SnoozeDelay, Snoozed(s.prompts[k].event))])
  }

  /** Timer `i` is one the event loop may run next. */
  predicate IsNext(s: State, i: nat) {
    i < |s.timers| && forall j :: 0 <= j < |s.timers| ==> s.timers[i].due <= s.timers[j].due
  }

  /** The time at which timer `i` runs: its due time, as timers never run early. */
  function RunTime(s: State, i: nat): int
    requires i < |s.timers|
  {
    if s.timers[i].due > s.clock then s.timers[i].due else s.clock
  }

  /** The event loop runs timer `i`: the clock moves to its due time and its
      callback runs; `permitted` is what the permission check answers if the
      callback asks, that is `HasPermission(supported, current, answer)` for
      the browser's support, its current permission and the user's answer. */
  function Tick(s: State, i: nat, permitted: bool): State
    requires IsNext(s, i)
  {
    var tm := s.timers[i];
    var s1 := s.(clock := RunTime(s, i), timers := s.timers[..i] + s.timers[i + 1..]);
    match tm.kind
    case Arming(e, at) =>
      if s1.clock < at then s1.(timers := s1.timers + [Timer(s1.clock + TimerDelay(CappedDelay(at - s1.clock)), Arming(e, at))])
      else ShowNotification(s1, e, permitted)
    case Snoozed(e) => ShowNotification(s1, e, permitted)
    case FollowUp(e, n) => FollowUpDue(s1, e, n)
  }

  /** What every reachable state satisfies: no timer is overdue, no arming
      timer is due after its target, each active entry names an open
      notification of that event, and serials in use were handed out. */
  predicate Inv(s: State) {
    && (forall i :: 0 <= i < |s.timers| ==> s.timers[i].due >= s.clock)
    && (forall i :: 0 <= i < |s.timers| && s.timers[i].kind.Arming? ==> s.timers[i].due <= s.timers[i].kind.at)
    && (forall id :: id in s.active ==> s.active[id] in s.shown && s.shown[s.active[id]].event.id == id)
    && (forall n :: n in s.shown ==> n < s.next)
    && (forall i :: 0 <= i < |s.timers| && s.timers[i].kind.FollowUp? ==> s.timers[i].kind.serial < s.next)
  }

  // ----- properties -----

  /** Permission is granted exactly when the browser supports notifications
      and the permission is, or the user's answer makes it, granted. */
  lemma PermissionIff(supported: bool, current: Permission, answer: Permission)
    ensures HasPermission(supported, current, answer)
      <==> supported && (current == Granted || (current == Undecided && answer == Granted))
  {
  }

  /** The browser honours a requested delay exactly when it lies between 0
      and 2^31 - 1 ms; one of 2^31 up to 2^32 ms runs at once, and one of
      2^32 ms and more runs 2^32 ms early. */
  lemma TimerDelayRanges(d: int)
    requires d > 0
    ensures TimerDelay(d) == d <==> d <= MaxDelay
    ensures 0x8000_0000 <= d < 0x1_0000_0000 ==> TimerDelay(d) == 0
    ensures 0x1_0000_0000 <= d < 0x1_8000_0000 ==> TimerDelay(d) == d - 0x1_0000_0000
  {
    if 0x1_0000_0000 <= d < 0x1_8000_0000 {
      assert d % 0x1_0000_0000 == d - 0x1_0000_0000;
    }
  }

  /** As written, a timer is armed for exactly the upcoming events, due once
      the browser's converted delay has passed. */
  lemma {:induction false} ArmAsWrittenIff(p: Platform, events: seq<Event>, now: int, tm: Timer)
    ensures tm in ArmAsWritten(p, events, now) <==>
      && tm.kind.Arming? && tm.kind.event in events && Upcoming(p, now, tm.kind.event)
      && tm.due == tm.kind.at == now + TimerDelay(p.parseDate(tm.kind.event.startTime).value - now)
    decreases |events|
  {
    if |events| > 0 {
      ArmAsWrittenIff(p, events[1..], now, tm);
      assert events == [events[0]] + events[1..];
    }
  }

  /** As written, an event 2^31 ms or more but less than 2^32 ms ahead (from
      about 24.9 days on) is notified at once instead of at its start. */
  lemma FarEventNotifiedAtOnce(p: Platform, e: Event, now: int)
    requires Upcoming(p, now, e)
    requires 0x8000_0000 <= p.parseDate(e.startTime).value - now < 0x1_0000_0000
    ensures ArmAsWritten(p, [e], now) == [Timer(now, Arming(e, now))]
  {
    TimerDelayRanges(p.parseDate(e.startTime).value - now);
  }

  /** An event thirty days ahead, as written: its timer is due immediately. */
  lemma ThirtyDaysAheadAsWritten(p: Platform, e: Event, now: int)
    requires p.parseDate(e.startTime) == Some(now + 30 * 24 * 60 * 60 * 1000)
    ensures ArmAsWritten(p, [e], now)[0].due == now
  {
    FarEventNotifiedAtOnce(p, e, now);
  }

  /** As written, every list refresh re-arms an event 2^31 ms or more but
      less than 2^32 ms ahead with a timer due at once, and that timer
      shows the notification when it runs. */
  lemma FarEventRearmedAtOnce(p: Platform, s: State, events: seq<Event>, e: Event)
    requires e in events && Upcoming(p, s.clock, e)
    requires 0x8000_0000 <= p.parseDate(e.startTime).value - s.clock < 0x1_0000_0000
    ensures Timer(s.clock, Arming(e, s.clock)) in RebuildAsWritten(p, s, events).timers
  {
    TimerDelayRanges(p.parseDate(e.startTime).value - s.clock);
    ArmAsWrittenIff(p, events, s.clock, Timer(s.clock, Arming(e, s.clock)));
  }

  /** The capped delay of a positive wait is one the browser honours. */
  lemma CappedDelayHonoured(d: int)
    requires d > 0
    ensures TimerDelay(CappedDelay(d)) == CappedDelay(d) && 0 < CappedDelay(d) <= d
    ensures CappedDelay(d) == d <==> d <= MaxDelay
  {
    TimerDelayRanges(CappedDelay(d));
  }

  /** A timer is armed for exactly the upcoming events, aimed at their start
      and due there when it is at most `MaxDelay` ms away, else `MaxDelay`
      ms from now. */
  lemma {:induction false} ArmIff(p: Platform, events: seq<Event>, now: int, tm: Timer)
    ensures tm in Arm(p, events, now) <==>
      && tm.kind.Arming? && tm.kind.event in events && Upcoming(p, now, tm.kind.event)
      && tm.kind.at == p.parseDate(tm.kind.event.startTime).value
      && tm.due == (if tm.kind.at - now <= MaxDelay then tm.kind.at else now + MaxDelay)
    decreases |events|
  {
    if |events| > 0 {
      ArmIff(p, events[1..], now, tm);
      assert events == [events[0]] + events[1..];
      var t := p.parseDate(events[0].startTime);
      if t.Some? && t.value > now {
        CappedDelayHonoured(t.value - now);
      }
    }
  }

  /** The arming pass keeps list order: it is the list of upcoming events. */
  lemma {:induction false} ArmFollowsList(p: Platform, events: seq<Event>, now: int)
    ensures var u := Filter((e: Event) => Upcoming(p, now, e), events);
      && |Arm(p, events, now)| == |u|
      && forall k :: 0 <= k < |u| ==>
        var kind := Arm(p, events, now)[k].kind;
        kind.Arming? && kind.event == u[k] && p.parseDate(u[k].startTime) == Some(kind.at)
    decreases |events|
  {
    if |events| > 0 {
      ArmFollowsList(p, events[1..], now);
    }
  }

  /** After a rebuild the arming timers are exactly the new pass's, and
      every other timer is kept. */
  lemma RebuildReplacesArming(p: Platform, s: State, events: seq<Event>, tm: Timer)
    ensures tm.kind.Arming? ==> (tm in Rebuild(p, s, events).timers <==> tm in Arm(p, events, s.clock))
    ensures !tm.kind.Arming? ==> (tm in Rebuild(p, s, events).timers <==> tm in s.timers)
  {
    FilterMember((t: Timer) => !t.kind.Arming?, s.timers, tm);
    ArmIff(p, events, s.clock, tm);
  }

  /** Without permission nothing is shown and no follow-up is scheduled. */
  lemma FireWithoutPermission(s: State, i: nat)
    requires IsNext(s, i) && !s.timers[i].kind.FollowUp?
    requires s.timers[i].kind.Arming? ==> s.timers[i].kind.at <= RunTime(s, i)
    ensures var t := Tick(s, i, false);
      t.shown == s.shown && t.active == s.active && t.prompts == s.prompts
      && |t.timers| == |s.timers| - 1
  {
  }

  /** With permission, the armed or snoozed event's notification is shown
      with its title, description or default body, and image or default
      icon; it becomes the event's active entry, and a follow-up is due
      `FollowUpDelay` later. */
  lemma FireWithPermission(s: State, i: nat)
    requires IsNext(s, i) && !s.timers[i].kind.FollowUp?
    requires s.timers[i].kind.Arming? ==> s.timers[i].kind.at <= RunTime(s, i)
    ensures var e := s.timers[i].kind.event;
      var t := Tick(s, i, true);
      var n := s.next;
      && t.shown == s.shown[n := t.shown[n]]
      && t.shown[n].title == "Event: " + e.title
      && t.shown[n].body == (if e.description.Some? && e.description.value != "" then e.description.value else "Your scheduled event is now.")
      && t.shown[n].icon == (if e.imageURL.Some? && e.imageURL.value != "" then e.imageURL.value else "/calendrix-icon.png")
      && t.active == s.active[e.id := n]
      && t.timers[|t.timers| - 1] == Timer(t.clock + 10000, FollowUp(e, n))
  {
  }

  /** An arming timer never shows its notification early: it either arms
      again, no later than its target, or it runs exactly at its target. */
  lemma ArmingShowsAtTarget(s: State, i: nat, permitted: bool)
    requires Inv(s) && IsNext(s, i) && s.timers[i].kind.Arming?
    ensures var t := Tick(s, i, permitted);
      var at := s.timers[i].kind.at;
      if t.clock < at then
        && t.shown == s.shown && t.active == s.active
        && t.timers[|t.timers| - 1].kind == s.timers[i].kind
        && t.clock < t.timers[|t.timers| - 1].due <= at
      else t.clock == at
  {
    var at := s.timers[i].kind.at;
    if RunTime(s, i) < at {
      CappedDelayHonoured(at - RunTime(s, i));
    }
  }

  /** Clicking or closing a notification removes its event's entry. */
  lemma CloseRemovesEntry(s: State, n: nat)
    requires n in s.shown
    ensures var t := Close(s, n);
      n !in t.shown && s.shown[n].event.id !in t.active
      && (forall id :: id in s.active && id != s.shown[n].event.id ==> id in t.active)
  {
  }

  /** A follow-up whose event is still active closes its notification and
      puts up the snooze prompt. */
  lemma FollowUpPrompts(s: State, i: nat, permitted: bool)
    requires IsNext(s, i) && s.timers[i].kind.FollowUp?
    requires s.timers[i].kind.event.id in s.active
    ensures var e, n := s.timers[i].kind.event, s.timers[i].kind.serial;
      var t := Tick(s, i, permitted);
      && n !in t.shown
      && |t.prompts| == |s.prompts| + 1
      && t.prompts[|s.prompts|].title == "Snooze event?"
      && t.prompts[|s.prompts|].body == "Click to snooze \"" + e.title + "\" for 5 minutes"
  {
  }

  /** A follow-up after the notification was dismissed does nothing. */
  lemma FollowUpAfterDismissal(s: State, i: nat, permitted: bool)
    requires IsNext(s, i) && s.timers[i].kind.FollowUp?
    requires s.timers[i].kind.event.id !in s.active
    ensures var t := Tick(s, i, permitted);
      t.shown == s.shown && t.active == s.active && t.prompts == s.prompts
  {
  }

  /** Clicking a snooze prompt schedules the event to show again five minutes later. */
  lemma SnoozeReschedules(s: State, k: nat)
    requires k < |s.prompts|
    ensures var t := ClickPrompt(s, k);
      && |t.prompts| == |s.prompts| - 1
      && t.timers == s.timers + [Timer(s.clock + 300000, Snoozed(s.prompts[k].event))]
  {
  }

  /** A click after time has passed snoozes from the moment of the click. */
  lemma SnoozeCountsFromClick(s: State, t: int, k: nat)
    requires s.clock <= t && forall i :: 0 <= i < |s.timers| ==> t <= s.timers[i].due
    requires k < |s.prompts|
    ensures ClickPrompt(Advance(s, t), k).timers == s.timers + [Timer(t + 300000, Snoozed(s.prompts[k].event))]
  {
  }

  /** Dismissing a snooze prompt removes it and schedules nothing. */
  lemma DismissPromptSchedulesNothing(s: State, k: nat)
    requires k < |s.prompts|
    ensures var t := DismissPrompt(s, k);
      && t.timers == s.timers && t.shown == s.shown && t.active == s.active
      && t.prompts == s.prompts[..k] + s.prompts[k + 1..]
  {
  }

  /** Unmounting closes every notification the map names, forgets the map,
      and leaves no arming timer; other open notifications and timers stay. */
  lemma UnmountCloses(s: State, n: nat, tm: Timer)
    ensures var t := Unmount(s);
      && t.active == map[]
      && (n in t.shown <==> n in s.shown && forall id :: id in s.active ==> s.active[id] != n)
      && (tm in t.timers <==> tm in s.timers && !tm.kind.Arming?)
  {
    FilterMember((x: Timer) => !x.kind.Arming?, s.timers, tm);
    if n in s.shown && n in s.active.Values {
      var id :| id in s.active && s.active[id] == n;
    }
  }

  /** Every transition keeps the invariant. */
  lemma RebuildKeepsInv(p: Platform, s: State, events: seq<Event>)
    requires Inv(s)
    ensures Inv(Rebuild(p, s, events))
  {
    var t := Rebuild(p, s, events);
    forall i | 0 <= i < |t.timers| ensures t.timers[i].due >= t.clock
      && (t.timers[i].kind.Arming? ==> t.timers[i].due <= t.timers[i].kind.at)
      && (t.timers[i].kind.FollowUp? ==> t.timers[i].kind.serial < t.next)
    {
      var tm := t.timers[i];
      assert tm in t.timers;
      RebuildReplacesArming(p, s, events, tm);
      if tm.kind.Arming? {
        ArmIff(p, events, s.clock, tm);
      } else {
        var j :| 0 <= j < |s.timers| && s.timers[j] == tm;
      }
    }
  }

  lemma RebuildAsWrittenKeepsInv(p: Platform, s: State, events: seq<Event>)
    requires Inv(s)
    ensures Inv(RebuildAsWritten(p, s, events))
  {
    var t := RebuildAsWritten(p, s, events);
    forall i | 0 <= i < |t.timers| ensures t.timers[i].due >= t.clock
      && (t.timers[i].kind.Arming? ==> t.timers[i].due <= t.timers[i].kind.at)
      && (t.timers[i].kind.FollowUp? ==> t.timers[i].kind.serial < t.next)
    {
      var tm := t.timers[i];
      assert tm in t.timers;
      FilterMember((x: Timer) => !x.kind.Arming?, s.timers, tm);
      ArmAsWrittenIff(p, events, s.clock, tm);
      if !(tm in ArmAsWritten(p, events, s.clock)) {
        var j :| 0 <= j < |s.timers| && s.timers[j] == tm;
      }
    }
  }

  lemma AdvanceKeepsInv(s: State, t: int)
    requires Inv(s) && s.clock <= t && forall i :: 0 <= i < |s.timers| ==> t <= s.timers[i].due
    ensures Inv(Advance(s, t))
  {
  }

  lemma DismissPromptKeepsInv(s: State, k: nat)
    requires Inv(s) && k < |s.prompts|
    ensures Inv(DismissPrompt(s, k))
  {
  }

  lemma CloseKeepsInv(s: State, n: nat)
    requires Inv(s)
    ensures Inv(Close(s, n))
  {
  }

  lemma ClickPromptKeepsInv(s: State, k: nat)
    requires Inv(s) && k < |s.prompts|
    ensures Inv(ClickPrompt(s, k))
  {
  }

  lemma UnmountKeepsInv(s: State)
    requires Inv(s)
    ensures Inv(Unmount(s))
  {
    var t := Unmount(s);
    forall i | 0 <= i < |t.timers| ensures t.timers[i].due >= t.clock
      && (t.timers[i].kind.Arming? ==> t.timers[i].due <= t.timers[i].kind.at)
      && (t.timers[i].kind.FollowUp? ==> t.timers[i].kind.serial < t.next)
    {
      var tm := t.timers[i];
      assert tm in t.timers;
      FilterMember((x: Timer) => !x.kind.Arming?, s.timers, tm);
      var j :| 0 <= j < |s.timers| && s.timers[j] == tm;
    }
  }

  /** Taking timer `i` off the list at its run time keeps the invariant. */
  lemma TakeTimerKeepsInv(s: State, i: nat)
    requires Inv(s) && IsNext(s, i)
    ensures Inv(s.(clock := RunTime(s, i), timers := s.timers[..i] + s.timers[i + 1..]))
  {
    var s1 := s.(clock := RunTime(s, i), timers := s.timers[..i] + s.timers[i + 1..]);
    assert forall j :: 0 <= j < |s1.timers| ==> s1.timers[j] == s.timers[if j < i then j else j + 1];
  }

  lemma ShowKeepsInv(s: State, e: Event, permitted: bool)
    requires Inv(s)
    ensures Inv(ShowNotification(s, e, permitted))
  {
  }

  lemma RearmKeepsInv(s: State, e: Event, at: int)
    requires Inv(s) && s.clock < at
    ensures Inv(s.(timers := s.timers + [Timer(s.clock + TimerDelay(CappedDelay(at - s.clock)), Arming(e, at))]))
  {
    CappedDelayHonoured(at - s.clock);
  }

  lemma TickKeepsInv(s: State, i: nat, permitted: bool)
    requires Inv(s) && IsNext(s, i)
    ensures Inv(Tick(s, i, permitted))
  {
    var s1 := s.(clock := RunTime(s, i), timers := s.timers[..i] + s.timers[i + 1..]);
    TakeTimerKeepsInv(s, i);
    match s.timers[i].kind
    case FollowUp(e, n) =>
      CloseKeepsInv(s1, n);
    case Arming(e, at) =>
      if s1.clock < at { RearmKeepsInv(s1, e, at); } else { ShowKeepsInv(s1, e, permitted); }
    case Snoozed(e) =>
      ShowKeepsInv(s1, e, permitted);
  }
}
