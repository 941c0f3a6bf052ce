/**
 * One tick of the Teamup reminder loop: the enabled/channel guard, the lead-time
 * window, the category filter, and the dedupe over the ids of events already
 * announced, which lives as long as the process does.
 */
module TeamupReminder {
  import opened JsValues

  const DefaultLeadMinutes := 15
  const MsPerMinute := 60000
  const DefaultCategory := "matches"

  /** The largest distance from the epoch, in milliseconds, that a `Date` can hold;
      beyond it the date is invalid and `toISOString` throws a `RangeError`. */
  const MaxTimeMs := 8640000000000000

  /** `ev.subcalendar`, when the event carries one. */
  datatype SubcalendarInfo = SubcalendarInfo(name: string, title: string)

  /** A calendar event as the calendar API returns it, reduced to what the tick reads.
      String fields hold `""` when the field is absent (both are falsy). `start` is
      `new Date(ev.start_dt || ev.start_dt_local || ev.start_dt_utc)` in milliseconds,
      `None` when that date is invalid. */
  datatype Event = Event(
    id: string,
    eventId: string,
    start: Option<int>,
    subcalendarId: Value,
    subcalendarName: string,
    subcalendar: Option<SubcalendarInfo>,
    title: string,
    location: string,
    who: string)

  /** The outcome of `client.channels.fetch(settings.channelId)`. */
  datatype ChannelLookup = Resolved | Unresolved

  /** The outcome of fetching the calendar's events for the window. */
  datatype FetchOutcome = Fetched(events: seq<Event>) | FetchError

  /** The message one reminder sends. `where` is the optional "Where" field and
      `lead` the minutes shown in "Starts in ~N minutes". */
  datatype Reminder = Reminder(id: string, title: string, calName: string, where: Option<string>, lead: int, start: int)

  /** How a tick ended. `DateOutOfRange` is a window end (or clock) outside the
      range of `Date`, on which `toISOString` throws; `CategoryNotText` is a truthy
      category that is not a string, on which `toLowerCase` throws. */
  datatype TickExit = NotConfigured | ChannelUnavailable | DateOutOfRange | FetchFailed | CategoryNotText | Completed

  /** The exits that are exceptions escaping the interval callback. */
  predicate Throws(exit: TickExit) {
    exit == DateOutOfRange || exit == CategoryNotText
  }

  /** A time `new Date(t)` accepts as valid. */
  predicate InDateRange(t: int) {
    -MaxTimeMs <= t <= MaxTimeMs
  }

  /** A tick's outcome: how it ended, the marked ids afterwards, the events it
      sent a message for, and those messages. */
  datatype TickResult = TickResult(exit: TickExit, notified: set<string>, sent: seq<Event>, messages: seq<Reminder>)

  /** `Number(settings.leadMinutes) || 15`. */
  function LeadMinutes(settings: Record): (m: int)
    ensures m != 0
    ensures "leadMinutes" !in settings ==> m == DefaultLeadMinutes
    ensures ToNumber(Field(settings, "leadMinutes")) in {None, Some(0)} ==> m == DefaultLeadMinutes
    ensures forall n :: ToNumber(Field(settings, "leadMinutes")) == Some(n) && n != 0 ==> m == n
  {
    var n := ToNumber(Field(settings, "leadMinutes"));
    if n.Some? && n.value != 0 then n.value else DefaultLeadMinutes
  }

  /** `(settings.category || "matches").toLowerCase()`; `None` when that throws. */
  function ChosenCategory(settings: Record): (c: Option<string>)
    ensures !Truthy(Field(settings, "category")) ==> c == Some(DefaultCategory)
    ensures Field(settings, "category").Str? && Field(settings, "category").s != "" ==>
              c == Some(ToLower(Field(settings, "category").s))
    ensures c.None? <==> Truthy(Field(settings, "category")) && !Field(settings, "category").Str?
  {
    var v := Field(settings, "category");
    // the default is already lower case
    if !Truthy(v) then Some(DefaultCategory)
    else if v.Str? then Some(ToLower(v.s))
    else None
  }

  /** `CATEGORY_TO_ID[chosen]` when `chosen` is not `"all"`; `None` stands for a
      falsy id, which admits every event. `categoryIds` holds the environment's
      sub-calendar ids, an unset variable being absent. */
  function AllowedSubcalendar(chosen: string, categoryIds: map<string, string>): (r: Option<string>)
    ensures r.Some? <==> chosen != "all" && chosen in categoryIds && categoryIds[chosen] != ""
    ensures r.Some? ==> r.value == categoryIds[chosen]
  {
    if chosen != "all" && chosen in categoryIds && categoryIds[chosen] != "" then Some(categoryIds[chosen])
    else None
  }

  /** `String(ev.subcalendar_id || "")`. */
  function SubcalendarKey(ev: Event): string {
    if Truthy(ev.subcalendarId) then ToStr(ev.subcalendarId) else ""
  }

  /** The predicate `events.filter` applies. */
  predicate Keep(ev: Event, now: int, windowEnd: int, allowed: Option<string>) {
    && ev.start.Some?
    && now < ev.start.value <= windowEnd
    && (allowed.None? || SubcalendarKey(ev) == allowed.value)
  }

  /** The events kept by the filter, in the order fetched. */
  function Upcoming(events: seq<Event>, now: int, windowEnd: int, allowed: Option<string>): (r: seq<Event>)
    ensures forall e :: e in r <==> e in events && Keep(e, now, windowEnd, allowed)
    ensures IsSubsequence(r, events)
  {
    if events == [] then []
    else
      var rest := Upcoming(events[1..], now, windowEnd, allowed);
      if Keep(events[0], now, windowEnd, allowed) then
        SubsequenceCons(events[0], rest, events[1..]);
        assert [events[0]] + events[1..] == events;
        [events[0]] + rest
      else
        SubsequenceSkip(rest, events);
        assert events == [events[0]] + events[1..];
        rest
  }

  /** The filter keeps every copy of a kept event and no copy of another, so
      duplicates in the fetched list survive into `upcoming`. */
  lemma {:induction false} UpcomingCounts(events: seq<Event>, now: int, windowEnd: int, allowed: Option<string>, e: Event)
    ensures multiset(Upcoming(events, now, windowEnd, allowed))[e]
            == if Keep(e, now, windowEnd, allowed) then multiset(events)[e] else 0
  {
    if events != [] {
      UpcomingCounts(events[1..], now, windowEnd, allowed, e);
      assert events == [events[0]] + events[1..];
    }
  }

  /** `ev.id || ev.event_id`; `""` means the event has no usable id. */
  function EventKey(ev: Event): string {
    if ev.id != "" then ev.id else ev.eventId
  }

  /** The embed title's calendar name: the event's sub-calendar name when it has
      one, else the chosen category upper-cased, else `"Event"` for `"all"`. */
  function CalName(ev: Event, chosen: string): (name: string)
    ensures name != "" || (chosen != "all" && chosen == "")
    ensures ev.subcalendarName != "" ==> name == ev.subcalendarName
    ensures ev.subcalendarName == "" && ev.subcalendar.Some? && ev.subcalendar.value.name != "" ==>
              name == ev.subcalendar.value.name
    ensures ev.subcalendarName == "" && ev.subcalendar.Some? && ev.subcalendar.value.name == ""
            && ev.subcalendar.value.title != ""
            ==> name == ev.subcalendar.value.title
    ensures ev.subcalendarName == ""
            && (ev.subcalendar.None? || (ev.subcalendar.value.name == "" && ev.subcalendar.value.title == ""))
            ==> name == (if chosen != "all" then ToUpper(chosen) else "Event")
  {
    var fromInfo := if ev.subcalendar.Some? then
        (if ev.subcalendar.value.name != "" then ev.subcalendar.value.name else ev.subcalendar.value.title)
      else "";
    var found := if ev.subcalendarName != "" then ev.subcalendarName else fromInfo;
    if found != "" then found
    else if chosen != "all" then ToUpper(chosen)
    else "Event"
  }

  const WhereSeparator := " – "

  /** The optional "Where" field: location and participants, whichever are present,
      joined by an en dash. */
  function Where(ev: Event): (w: Option<string>)
    ensures w.Some? <==> ev.location != "" || ev.who != ""
    ensures w.Some? ==> w.value != ""
    ensures ev.location != "" && ev.who != "" ==> w == Some(ev.location + WhereSeparator + ev.who)
    ensures ev.location == "" && ev.who != "" ==> w == Some(ev.who)
    ensures ev.location != "" && ev.who == "" ==> w == Some(ev.location)
  {
    var parts := (if ev.location != "" then [ev.location] else []) + (if ev.who != "" then [ev.who] else []);
    if parts == [] then None
    else if |parts| == 1 then Some(parts[0])
    else Some(parts[0] + WhereSeparator + parts[1])
  }

  /** `Math.round((start - now) / 60000)`: the nearest whole minute, halves rounded up. */
  function LeadShown(start: int, now: int): (lead: int)
    ensures lead * MsPerMinute - MsPerMinute / 2 <= start - now < lead * MsPerMinute + MsPerMinute / 2
  {
    (start - now + MsPerMinute / 2) / MsPerMinute
  }

  /** Inside the window the minutes shown lie between 0 and the lead time. */
  lemma LeadShownBounds(start: int, now: int, leadMinutes: int)
    requires now < start <= now + leadMinutes * MsPerMinute
    ensures 0 <= LeadShown(start, now) <= leadMinutes
  {
  }

  function ReminderFor(ev: Event, chosen: string, now: int): (r: Reminder)
    requires ev.start.Some? && EventKey(ev) != ""
    ensures r.id == EventKey(ev) && r.id != "" && r.start == ev.start.value
    ensures r.title == (if ev.title != "" then ev.title else "Untitled event")
    ensures r.calName == CalName(ev, chosen) && r.where == Where(ev)
    ensures r.lead == LeadShown(ev.start.value, now)
  {
    Reminder(EventKey(ev), if ev.title != "" then ev.title else "Untitled event",
             CalName(ev, chosen), Where(ev), LeadShown(ev.start.value, now), ev.start.value)
  }

  /** The ids of a sequence of events. */
  function Keys(evs: seq<Event>): set<string> {
    set e | e in evs :: EventKey(e)
  }

  /** The ids among `evs` that the dedupe loop would mark. */
  function NewKeys(evs: seq<Event>): set<string> {
    set e | e in evs && EventKey(e) != "" :: EventKey(e)
  }

  predicate DistinctKeys(evs: seq<Event>) {
    forall i, j :: 0 <= i < j < |evs| ==> EventKey(evs[i]) != EventKey(evs[j])
  }

  datatype DedupeResult = DedupeResult(notified: set<string>, sent: seq<Event>)

  /** The `for (const ev of upcoming)` loop as a function: skip an event without an
      id or with an id already marked, otherwise mark it and send it. */
  function Dedupe(notified: set<string>, upcoming: seq<Event>): DedupeResult
    decreases |upcoming|
  {
    if upcoming == [] then DedupeResult(notified, [])
    else
      var key := EventKey(upcoming[0]);
      if key == "" || key in notified then Dedupe(notified, upcoming[1..])
      else
        var rest := Dedupe(notified + {key}, upcoming[1..]);
        DedupeResult(rest.notified, [upcoming[0]] + rest.sent)
  }

  /** What the loop sends: events from `upcoming`, in order, each with an id that
      was not marked before and that no other sent event shares. */
  lemma {:induction false} DedupeSent(notified: set<string>, upcoming: seq<Event>)
    ensures var d := Dedupe(notified, upcoming);
      && IsSubsequence(d.sent, upcoming)
      && (forall e :: e in d.sent ==> e in upcoming && EventKey(e) != "" && EventKey(e) !in notified)
      && DistinctKeys(d.sent)
    decreases |upcoming|
  {
    if upcoming != [] {
      var key := EventKey(upcoming[0]);
      assert upcoming == [upcoming[0]] + upcoming[1..];
      if key == "" || key in notified {
        DedupeSent(notified, upcoming[1..]);
        SubsequenceSkip(Dedupe(notified, upcoming[1..]).sent, upcoming);
      } else {
        var rest := Dedupe(notified + {key}, upcoming[1..]);
        DedupeSent(notified + {key}, upcoming[1..]);
        SubsequenceCons(upcoming[0], rest.sent, upcoming[1..]);
        var sent := [upcoming[0]] + rest.sent;
        forall i, j | 0 <= i < j < |sent| ensures EventKey(sent[i]) != EventKey(sent[j]) {
          if i > 0 {
            assert sent[i] == rest.sent[i - 1] && sent[j] == rest.sent[j - 1];
          } else {
            assert sent[j] in rest.sent;
          }
        }
      }
    }
  }

  /** Position `i` holds the first event of `upcoming` with its id, and that id is
      usable and not marked in `notified`. */
  predicate FirstOfItsId(notified: set<string>, upcoming: seq<Event>, i: int) {
    && 0 <= i < |upcoming|
    && EventKey(upcoming[i]) != "" && EventKey(upcoming[i]) !in notified
    && forall j :: 0 <= j < i ==> EventKey(upcoming[j]) != EventKey(upcoming[i])
  }

  /** Of several events sharing an id, the loop sends the first in fetch order:
      an event is sent exactly when it is the first with its id, that id being
      new. */
  lemma DedupeSendsFirst(notified: set<string>, upcoming: seq<Event>, e: Event)
    ensures e in Dedupe(notified, upcoming).sent <==>
            exists i :: FirstOfItsId(notified, upcoming, i) && upcoming[i] == e
  {
    if e in Dedupe(notified, upcoming).sent {
      var i := DedupeSentIsFirst(notified, upcoming, e);
    }
    if exists i :: FirstOfItsId(notified, upcoming, i) && upcoming[i] == e {
      var i :| FirstOfItsId(notified, upcoming, i) && upcoming[i] == e;
      DedupeFirstIsSent(notified, upcoming, i);
    }
  }

  /** A sent event is the first of `upcoming` with its id. */
  lemma {:induction false} DedupeSentIsFirst(notified: set<string>, upcoming: seq<Event>, e: Event) returns (i: int)
    requires e in Dedupe(notified, upcoming).sent
    ensures FirstOfItsId(notified, upcoming, i) && upcoming[i] == e
    decreases |upcoming|
  {
    var x, rest := upcoming[0], upcoming[1..];
    var key := EventKey(x);
    var marked := if key == "" || key in notified then notified else notified + {key};
    if key != "" && key !in notified && e == x {
      i := 0;
    } else {
      var i' := DedupeSentIsFirst(marked, rest, e);
      i := i' + 1;
      forall j | 0 <= j < i ensures EventKey(upcoming[j]) != EventKey(upcoming[i]) {
        if j > 0 { assert upcoming[j] == rest[j - 1]; }
      }
    }
  }

  /** The first event of `upcoming` with a new, non-empty id is sent. */
  lemma {:induction false} DedupeFirstIsSent(notified: set<string>, upcoming: seq<Event>, i: int)
    requires FirstOfItsId(notified, upcoming, i)
    ensures upcoming[i] in Dedupe(notified, upcoming).sent
    decreases |upcoming|
  {
    if i > 0 {
      var x, rest := upcoming[0], upcoming[1..];
      var key := EventKey(x);
      var marked := if key == "" || key in notified then notified else notified + {key};
      assert EventKey(x) != EventKey(upcoming[i]);
      assert FirstOfItsId(marked, rest, i - 1) by {
        forall j | 0 <= j < i - 1 ensures EventKey(rest[j]) != EventKey(rest[i - 1]) {
          assert rest[j] == upcoming[j + 1];
        }
      }
      DedupeFirstIsSent(marked, rest, i - 1);
    }
  }

  /** After the loop the marked set is the old one plus every id the window held:
      an id is marked whether or not its send succeeds, and the set only grows. */
  lemma {:induction false} DedupeMarks(notified: set<string>, upcoming: seq<Event>)
    ensures Dedupe(notified, upcoming).notified == notified + NewKeys(upcoming)
    ensures Dedupe(notified, upcoming).notified == notified + Keys(Dedupe(notified, upcoming).sent)
    decreases |upcoming|
  {
    if upcoming != [] {
      var key := EventKey(upcoming[0]);
      assert upcoming == [upcoming[0]] + upcoming[1..];
      assert NewKeys(upcoming) == (if key != "" then {key} else {}) + NewKeys(upcoming[1..]);
      if key == "" || key in notified {
        DedupeMarks(notified, upcoming[1..]);
      } else {
        var rest := Dedupe(notified + {key}, upcoming[1..]);
        DedupeMarks(notified + {key}, upcoming[1..]);
        assert Keys([upcoming[0]] + rest.sent) == {key} + Keys(rest.sent);
      }
    }
  }

  /** A step of the loop that skips `upcoming[i]`. */
  lemma DedupeSkip(notified: set<string>, upcoming: seq<Event>, i: nat)
    requires i < |upcoming| && (EventKey(upcoming[i]) == "" || EventKey(upcoming[i]) in notified)
    ensures Dedupe(notified, upcoming[i..]) == Dedupe(notified, upcoming[i + 1..])
  {
    assert upcoming[i..][0] == upcoming[i] && upcoming[i..][1..] == upcoming[i + 1..];
  }

  /** A step of the loop that marks and sends `upcoming[i]`. */
  lemma DedupeTake(notified: set<string>, upcoming: seq<Event>, i: nat)
    requires i < |upcoming| && EventKey(upcoming[i]) != "" && EventKey(upcoming[i]) !in notified
    ensures var rest := Dedupe(notified + {EventKey(upcoming[i])}, upcoming[i + 1..]);
      && Dedupe(notified, upcoming[i..]).notified == rest.notified
      && Dedupe(notified, upcoming[i..]).sent == [upcoming[i]] + rest.sent
  {
    assert upcoming[i..][0] == upcoming[i] && upcoming[i..][1..] == upcoming[i + 1..];
  }

  /** The messages for the events the loop sends. */
  function Reminders(evs: seq<Event>, chosen: string, now: int): (rs: seq<Reminder>)
    requires forall e :: e in evs ==> e.start.Some? && EventKey(e) != ""
    ensures |rs| == |evs|
    ensures forall k :: 0 <= k < |evs| ==> rs[k] == ReminderFor(evs[k], chosen, now)
  {
    seq(|evs|, k requires 0 <= k < |evs| => ReminderFor(evs[k], chosen, now))
  }

  lemma RemindersSnoc(evs: seq<Event>, ev: Event, chosen: string, now: int)
    requires forall e :: e in evs ==> e.start.Some? && EventKey(e) != ""
    requires ev.start.Some? && EventKey(ev) != ""
    ensures Reminders(evs + [ev], chosen, now) == Reminders(evs, chosen, now) + [ReminderFor(ev, chosen, now)]
  {
  }

  /** One whole tick, given the settings record it reads, the environment's
      category ids, the channel and fetch outcomes, and the clock. */
  function TickSpec(notified: set<string>, settings: Record, categoryIds: map<string, string>,
                    channel: ChannelLookup, fetched: FetchOutcome, now: int): TickResult
  {
    if !Truthy(Field(settings, "enabled")) || !Truthy(Field(settings, "channelId")) then
      TickResult(NotConfigured, notified, [], [])
    else if channel.Unresolved? then TickResult(ChannelUnavailable, notified, [], [])
    else if !InDateRange(now) || !InDateRange(now + LeadMinutes(settings) * MsPerMinute) then
      TickResult(DateOutOfRange, notified, [], [])
    else if fetched.FetchError? then TickResult(FetchFailed, notified, [], [])
    else if ChosenCategory(settings).None? then TickResult(CategoryNotText, notified, [], [])
    else
      var chosen := ChosenCategory(settings).value;
      var windowEnd := now + LeadMinutes(settings) * MsPerMinute;
      var upcoming := Upcoming(fetched.events, now, windowEnd, AllowedSubcalendar(chosen, categoryIds));
      CompleteTick(notified, upcoming, chosen, now)
  }

  /** The end of a tick that reaches the loop over `upcoming`. */
  function CompleteTick(notified: set<string>, upcoming: seq<Event>, chosen: string, now: int): TickResult
    requires forall e :: e in upcoming ==> e.start.Some?
  {
    var d := Dedupe(notified, upcoming);
    DedupeSent(notified, upcoming);
    TickResult(Completed, d.notified, d.sent, Reminders(d.sent, chosen, now))
  }

  /** Every tick, however it ends, marks exactly the ids it sends, sends each id
      at most once and never one marked before; an early exit sends nothing. */
  lemma TickBookkeeping(notified: set<string>, settings: Record, categoryIds: map<string, string>,
                        channel: ChannelLookup, fetched: FetchOutcome, now: int)
    ensures var t := TickSpec(notified, settings, categoryIds, channel, fetched, now);
      && (t.exit != Completed ==> t.sent == [] && t.messages == [] && t.notified == notified)
      && t.notified == notified + Keys(t.sent)
      && DistinctKeys(t.sent)
      && (forall e :: e in t.sent ==> EventKey(e) != "" && EventKey(e) !in notified)
  {
    if Truthy(Field(settings, "enabled")) && Truthy(Field(settings, "channelId")) && channel.Resolved?
       && InDateRange(now) && InDateRange(now + LeadMinutes(settings) * MsPerMinute)
       && fetched.Fetched? && ChosenCategory(settings).Some? {
      var chosen := ChosenCategory(settings).value;
      var windowEnd := now + LeadMinutes(settings) * MsPerMinute;
      var upcoming := Upcoming(fetched.events, now, windowEnd, AllowedSubcalendar(chosen, categoryIds));
      assert TickSpec(notified, settings, categoryIds, channel, fetched, now) == CompleteTick(notified, upcoming, chosen, now);
      CompleteTickBookkeeping(notified, upcoming, chosen, now);
    }
  }

  /** The bookkeeping of `TickBookkeeping` for a tick that reaches the loop. */
  lemma CompleteTickBookkeeping(notified: set<string>, upcoming: seq<Event>, chosen: string, now: int)
    requires forall e :: e in upcoming ==> e.start.Some?
    ensures var t := CompleteTick(notified, upcoming, chosen, now);
      && t.notified == notified + Keys(t.sent)
      && DistinctKeys(t.sent)
      && (forall e :: e in t.sent ==> EventKey(e) != "" && EventKey(e) !in notified)
  {
    DedupeSent(notified, upcoming);
    DedupeMarks(notified, upcoming);
  }

  /** When a tick completes: it stops early (see `TickBookkeeping`) exactly
      when the record is not enabled or has no channel, the channel cannot be
      resolved, the window end is not a valid date, the fetch fails or the
      category is not text; a completed tick
      sends, in fetch order, a message for each fetched event that lies in the
      window, passes the category filter and has an id not marked before, one per
      id, and marks exactly the ids of the window. */
  lemma TickProperties(notified: set<string>, settings: Record, categoryIds: map<string, string>,
                       channel: ChannelLookup, fetched: FetchOutcome, now: int)
    ensures var t := TickSpec(notified, settings, categoryIds, channel, fetched, now);
      && (t.exit == NotConfigured <==> !Truthy(Field(settings, "enabled")) || !Truthy(Field(settings, "channelId")))
      && (t.exit == DateOutOfRange <==> Truthy(Field(settings, "enabled")) && Truthy(Field(settings, "channelId"))
                                        && channel.Resolved?
                                        && !(InDateRange(now) && InDateRange(now + LeadMinutes(settings) * MsPerMinute)))
      && (t.exit == Completed <==> Truthy(Field(settings, "enabled")) && Truthy(Field(settings, "channelId"))
                                   && channel.Resolved?
                                   && InDateRange(now) && InDateRange(now + LeadMinutes(settings) * MsPerMinute)
                                   && fetched.Fetched? && ChosenCategory(settings).Some?)
      && (t.exit == Completed ==>
            var windowEnd := now + LeadMinutes(settings) * MsPerMinute;
            var allowed := AllowedSubcalendar(ChosenCategory(settings).value, categoryIds);
            && IsSubsequence(t.sent, fetched.events)
            && (forall e :: e in t.sent ==> Keep(e, now, windowEnd, allowed))
            && t.notified == notified + NewKeys(Upcoming(fetched.events, now, windowEnd, allowed)))
  {
    var t := TickSpec(notified, settings, categoryIds, channel, fetched, now);
    if t.exit == Completed {
      var chosen := ChosenCategory(settings).value;
      var windowEnd := now + LeadMinutes(settings) * MsPerMinute;
      var upcoming := Upcoming(fetched.events, now, windowEnd, AllowedSubcalendar(chosen, categoryIds));
      assert t == CompleteTick(notified, upcoming, chosen, now);
      CompleteTickSends(notified, upcoming, chosen, now);
      SubsequenceTransitive(t.sent, upcoming, fetched.events);
    }
  }

  /** What a tick that reaches the loop sends and marks, in terms of `upcoming`. */
  lemma CompleteTickSends(notified: set<string>, upcoming: seq<Event>, chosen: string, now: int)
    requires forall e :: e in upcoming ==> e.start.Some?
    ensures var t := CompleteTick(notified, upcoming, chosen, now);
      && IsSubsequence(t.sent, upcoming)
      && (forall e :: e in t.sent ==> e in upcoming)
      && t.notified == notified + NewKeys(upcoming)
  {
    DedupeSent(notified, upcoming);
    DedupeMarks(notified, upcoming);
  }

  /** Which event of a completed tick is sent for an id: an event is among those
      sent exactly when it is the first event of the window, in fetch order, with
      its id, and that id is non-empty and was not marked before the tick. */
  lemma TickSendsFirstOfEachId(notified: set<string>, settings: Record, categoryIds: map<string, string>,
                               channel: ChannelLookup, fetched: FetchOutcome, now: int, e: Event)
    requires TickSpec(notified, settings, categoryIds, channel, fetched, now).exit == Completed
    ensures var windowEnd := now + LeadMinutes(settings) * MsPerMinute;
      var upcoming := Upcoming(fetched.events, now, windowEnd, AllowedSubcalendar(ChosenCategory(settings).value, categoryIds));
      e in TickSpec(notified, settings, categoryIds, channel, fetched, now).sent <==>
        exists i :: FirstOfItsId(notified, upcoming, i) && upcoming[i] == e
  {
    TickProperties(notified, settings, categoryIds, channel, fetched, now);
    var chosen := ChosenCategory(settings).value;
    var windowEnd := now + LeadMinutes(settings) * MsPerMinute;
    var upcoming := Upcoming(fetched.events, now, windowEnd, AllowedSubcalendar(chosen, categoryIds));
    assert TickSpec(notified, settings, categoryIds, channel, fetched, now) == CompleteTick(notified, upcoming, chosen, now);
    DedupeSendsFirst(notified, upcoming, e);
  }

  /** Each message of a completed tick belongs to the sent event at the same place:
      it carries that event's id, start and title, its calendar name, a "Where"
      field exactly when the event has a location or participants, and minutes
      shown in `0..lead`. */
  lemma TickMessages(notified: set<string>, settings: Record, categoryIds: map<string, string>,
                     fetched: FetchOutcome, now: int, k: int)
    requires 0 <= k < |TickSpec(notified, settings, categoryIds, Resolved, fetched, now).sent|
    ensures var t := TickSpec(notified, settings, categoryIds, Resolved, fetched, now);
      && |t.messages| == |t.sent|
      && t.sent[k].start.Some?
      && t.messages[k].id == EventKey(t.sent[k])
      && t.messages[k].start == t.sent[k].start.value
      && now < t.messages[k].start <= now + LeadMinutes(settings) * MsPerMinute
      && 0 <= t.messages[k].lead <= LeadMinutes(settings)
      && t.messages[k].calName == CalName(t.sent[k], ChosenCategory(settings).value)
      && (t.messages[k].where.Some? <==> t.sent[k].location != "" || t.sent[k].who != "")
      && (t.sent[k].title != "" ==> t.messages[k].title == t.sent[k].title)
      && (t.sent[k].title == "" ==> t.messages[k].title == "Untitled event")
  {
    var t := TickSpec(notified, settings, categoryIds, Resolved, fetched, now);
    TickProperties(notified, settings, categoryIds, Resolved, fetched, now);
    assert t.sent[k] in t.sent;
    LeadShownBounds(t.sent[k].start.value, now, LeadMinutes(settings));
  }

  /** The window's bounds: an event starting at `now` is left out, one starting
      exactly at the window's end is kept, and one a millisecond later is left out. */
  lemma WindowBoundaries(ev: Event, now: int, settings: Record, allowed: Option<string>)
    requires allowed.None?
    ensures ev.start == Some(now) ==> !Keep(ev, now, now + LeadMinutes(settings) * MsPerMinute, allowed)
    ensures ev.start == Some(now + LeadMinutes(settings) * MsPerMinute) && LeadMinutes(settings) > 0
            ==> Keep(ev, now, now + LeadMinutes(settings) * MsPerMinute, allowed)
    ensures ev.start == Some(now + LeadMinutes(settings) * MsPerMinute + 1)
            ==> !Keep(ev, now, now + LeadMinutes(settings) * MsPerMinute, allowed)
  {
  }

  /** With category `"all"`, or a category whose sub-calendar id is not configured,
      every in-window event is kept; otherwise only those of that sub-calendar. */
  lemma CategoryFilter(ev: Event, now: int, windowEnd: int, chosen: string, categoryIds: map<string, string>)
    requires ev.start.Some? && now < ev.start.value <= windowEnd
    ensures chosen == "all" ==> Keep(ev, now, windowEnd, AllowedSubcalendar(chosen, categoryIds))
    ensures chosen !in categoryIds ==> Keep(ev, now, windowEnd, AllowedSubcalendar(chosen, categoryIds))
    ensures chosen != "all" && chosen in categoryIds && categoryIds[chosen] != "" ==>
      (Keep(ev, now, windowEnd, AllowedSubcalendar(chosen, categoryIds)) <==> SubcalendarKey(ev) == categoryIds[chosen])
  {
  }

  /** A numeric sub-calendar id from the calendar matches the same digits configured
      as text, since both sides go through `String`. */
  lemma NumericSubcalendarMatches(ev: Event, n: int)
    requires ev.subcalendarId == Num(n) && n > 0
    ensures SubcalendarKey(ev) == NatToString(n)
  {
  }

  /** A lead time so large that the window end leaves the range of `Date` makes
      the tick throw before the fetch, so nothing is sent. */
  lemma HugeLeadTimeThrows(ev: Event, settings: Record)
    requires Field(settings, "enabled") == Bool(true) && Field(settings, "channelId") == Str("c")
    requires Field(settings, "leadMinutes") == Num(1000000000000)
    ensures var t := TickSpec({}, settings, map[], Resolved, Fetched([ev]), 1700000000000);
      t.exit == DateOutOfRange && t.sent == []
  {
  }

  /** Several ticks in a row, each with its own inputs. */
  datatype TickInput = TickInput(settings: Record, categoryIds: map<string, string>,
                                 channel: ChannelLookup, fetched: FetchOutcome, now: int)

  /** The marked set and every event a message was sent for, over ticks run one
      after another in one process. A tick that throws rejects the interval
      callback's promise; nothing handles it, so Node ends the process there, and
      the ticks after it belong to no later run of this one. */
  function Run(notified: set<string>, ticks: seq<TickInput>): (set<string>, seq<Event>)
    decreases |ticks|
  {
    if ticks == [] then (notified, [])
    else
      var t := ticks[0];
      var first := TickSpec(notified, t.settings, t.categoryIds, t.channel, t.fetched, t.now);
      if Throws(first.exit) then (first.notified, first.sent)
      else
        var rest := Run(first.notified, ticks[1..]);
        (rest.0, first.sent + rest.1)
  }

  /** A tick that throws ends the run: nothing is sent after it and the marked
      set is the one it found. */
  lemma ThrowEndsRun(notified: set<string>, ticks: seq<TickInput>)
    requires ticks != []
    requires Throws(TickSpec(notified, ticks[0].settings, ticks[0].categoryIds, ticks[0].channel,
                             ticks[0].fetched, ticks[0].now).exit)
    ensures Run(notified, ticks) == (notified, [])
  {
    var t := ticks[0];
    TickBookkeeping(notified, t.settings, t.categoryIds, t.channel, t.fetched, t.now);
  }

  /** Across any number of ticks of one process no id is sent twice, none marked
      at the start is sent, and the marked set only grows, by the ids sent. */
  lemma {:induction false} RunSendsEachIdOnce(notified: set<string>, ticks: seq<TickInput>)
    ensures var (n, sent) := Run(notified, ticks);
      && DistinctKeys(sent)
      && (forall e :: e in sent ==> EventKey(e) != "" && EventKey(e) !in notified)
      && n == notified + Keys(sent)
    decreases |ticks|
  {
    if ticks != [] {
      var t := ticks[0];
      var first := TickSpec(notified, t.settings, t.categoryIds, t.channel, t.fetched, t.now);
      TickBookkeeping(notified, t.settings, t.categoryIds, t.channel, t.fetched, t.now);
      if Throws(first.exit) {
        return;
      }
      RunSendsEachIdOnce(first.notified, ticks[1..]);
      var rest := Run(first.notified, ticks[1..]);
      var sent := first.sent + rest.1;
      forall i, j | 0 <= i < j < |sent| ensures EventKey(sent[i]) != EventKey(sent[j]) {
        if j >= |first.sent| {
          if i >= |first.sent| {
            assert sent[i] == rest.1[i - |first.sent|] && sent[j] == rest.1[j - |first.sent|];
          } else {
            assert sent[i] in first.sent && sent[j] in rest.1;
          }
        }
      }
      assert Keys(sent) == Keys(first.sent) + Keys(rest.1);
    }
  }

  /** A tick that cannot resolve the channel marks nothing, so a later tick with the
      channel back behaves as if it had not happened. */
  lemma ChannelFailureLeavesNoTrace(notified: set<string>, failed: TickInput, next: TickInput)
    requires Truthy(Field(failed.settings, "enabled")) && Truthy(Field(failed.settings, "channelId"))
    requires failed.channel.Unresolved?
    ensures Run(notified, [failed, next]) == Run(notified, [next])
  {
    assert [failed, next][1..] == [next];
    var skipped := Run(notified, [next]);
    assert Run(notified, [failed, next]) == (skipped.0, [] + skipped.1);
    assert [] + skipped.1 == skipped.1;
  }

  /** The reminder loop's state: the ids already announced. */
  class ReminderScheduler {
    var notified: set<string>

    constructor ()
      ensures notified == {}
    {
      notified := {};
    }

    /** One tick. `sent` lists the events whose message was handed to
        `channel.send`, in order, and `messages` those messages; a send that fails
        is caught and changes nothing, so it is not an outcome. */
    method Tick(settings: Record, categoryIds: map<string, string>,
                channel: ChannelLookup, fetched: FetchOutcome, now: int)
      returns (exit: TickExit, sent: seq<Event>, messages: seq<Reminder>)
      modifies this
      ensures TickResult(exit, notified, sent, messages) == TickSpec(old(notified), settings, categoryIds, channel, fetched, now)
      ensures exit != Completed ==> sent == [] && notified == old(notified)
      ensures notified == old(notified) + Keys(sent)
      ensures DistinctKeys(sent) && forall e :: e in sent ==> EventKey(e) != "" && EventKey(e) !in old(notified)
    {
      sent, messages := [], [];
      if !Truthy(Field(settings, "enabled")) || !Truthy(Field(settings, "channelId")) {
        return NotConfigured, sent, messages;
      }
      if channel.Unresolved? {
        return ChannelUnavailable, sent, messages;
      }
      var leadMinutes := LeadMinutes(settings);
      var windowEnd := now + leadMinutes * MsPerMinute;
      if !InDateRange(now) || !InDateRange(windowEnd) {
        return DateOutOfRange, sent, messages;
      }
      if fetched.FetchError? {
        return FetchFailed, sent, messages;
      }
      var category := ChosenCategory(settings);
      if category.None? {
        return CategoryNotText, sent, messages;
      }
      var chosen := category.value;
      var upcoming := Upcoming(fetched.events, now, windowEnd, AllowedSubcalendar(chosen, categoryIds));
      assert TickSpec(notified, settings, categoryIds, channel, fetched, now) == CompleteTick(notified, upcoming, chosen, now);
      CompleteTickBookkeeping(notified, upcoming, chosen, now);
      sent, messages := SendUpcoming(upcoming, chosen, now);
      exit := Completed;
    }

    /** The `for (const ev of upcoming)` loop: each event with a new id is marked
        before its message is sent. */
    method SendUpcoming(upcoming: seq<Event>, chosen: string, now: int)
      returns (sent: seq<Event>, messages: seq<Reminder>)
      requires forall e :: e in upcoming ==> e.start.Some?
      modifies this
      ensures DedupeResult(notified, sent) == Dedupe(old(notified), upcoming)
      ensures forall e :: e in sent ==> e.start.Some? && EventKey(e) != ""
      ensures messages == Reminders(sent, chosen, now)
    {
      ghost var final := Dedupe(notified, upcoming);
      sent, messages := [], [];
      var i := 0;
      while i < |upcoming|
        invariant 0 <= i <= |upcoming|
        invariant Dedupe(notified, upcoming[i..]).notified == final.notified
        invariant sent + Dedupe(notified, upcoming[i..]).sent == final.sent
        invariant forall e :: e in sent ==> e.start.Some? && EventKey(e) != ""
        invariant messages == Reminders(sent, chosen, now)
      {
        var ev := upcoming[i];
        var key := if ev.id != "" then ev.id else ev.eventId;
        if key == "" || key in notified {
          DedupeSkip(notified, upcoming, i);
          i := i + 1;
          continue;
        }
        DedupeTake(notified, upcoming, i);
        ghost var rest := Dedupe(notified + {key}, upcoming[i + 1..]);
        ConcatAssociative(sent, [ev], rest.sent);
        RemindersSnoc(sent, ev, chosen, now);
        notified := notified + {key};
        messages := messages + [ReminderFor(ev, chosen, now)];
        sent := sent + [ev];
        i := i + 1;
      }
    }
  }
}
