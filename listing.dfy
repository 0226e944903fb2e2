/** The event listing both labs serve: `get_all`, which drops past events from
    the store as it reads them, and `events2json`, which sorts the list in place
    by date and renders each event with its ETA text. */
module Listing {
  import opened Wrappers
  import opened Seqs
  import opened Text
  import opened Calendar
  import opened Datastore
  import opened Tables

  /** `dict(event)` with its `ID` added. */
  datatype Listed = Listed(id: int, name: string, date: Date)

  /** One object of the JSON list: name, date as `mm/dd/yyyy`, ETA text and ID. */
  datatype Row = Row(name: string, date: string, eta: string, id: int)

  // ---------------------------------------------------------------- get_all

  /** An entity the ancestor query `kind = eventKind, ancestor = ancestor` fetches. */
  predicate InQuery(e: Entity, eventKind: string, ancestor: Key)
  {
    e.key.kind == eventKind && HasAncestor(e.key, ancestor) && e.props.EventProps?
  }

  /** An event whose date lies before the clock. */
  predicate Expired(e: Entity, now: int)
  {
    e.props.EventProps? && Midnight(e.props.date) < now
  }

  function QueryTest(eventKind: string, ancestor: Key): Entity -> bool
  {
    (e: Entity) => InQuery(e, eventKind, ancestor)
  }

  function LiveTest(now: int): Entity -> bool
  {
    (e: Entity) => !Expired(e, now)
  }

  /** Kept by `get_all`: not a fetched event that is past. */
  function StayTest(eventKind: string, ancestor: Key, now: int): Entity -> bool
  {
    (e: Entity) => !(InQuery(e, eventKind, ancestor) && Expired(e, now))
  }

  /** Kept so far: not one of the past events among those already visited. */
  function UnvisitedOrLive(done: seq<Entity>, now: int): Entity -> bool
  {
    (e: Entity) => !(e in done && Expired(e, now))
  }

  function ToListed(e: Entity): Listed
    requires e.props.EventProps?
  {
    Listed(e.key.id, e.props.name, e.props.date)
  }

  /** The events of `es` that are not past, as `get_all` lists them. */
  function LiveListed(es: seq<Entity>, now: int): (r: seq<Listed>)
    ensures |r| <= |es|
  {
    if |es| == 0 then []
    else
      var e := es[|es| - 1];
      LiveListed(es[..|es| - 1], now) + (if e.props.EventProps? && !Expired(e, now) then [ToListed(e)] else [])
  }

  /** The list `get_all` answers: the fetched events not yet past, in fetch
      order, each with its id. */
  function Visible(es: seq<Entity>, eventKind: string, ancestor: Key, now: int): seq<Listed>
  {
    LiveListed(Filter(es, QueryTest(eventKind, ancestor)), now)
  }

  /** The store `get_all` leaves: the fetched past events are deleted and
      nothing else changes. */
  function Evicted(es: seq<Entity>, eventKind: string, ancestor: Key, now: int): (r: seq<Entity>)
    ensures forall e :: e in r <==> e in es && !(InQuery(e, eventKind, ancestor) && Expired(e, now))
  {
    FilterMembers(es, StayTest(eventKind, ancestor, now));
    Filter(es, StayTest(eventKind, ancestor, now))
  }

  /** `get_all(owner)`: fetch the owner's events; delete each past one, keep the
      rest with its id. */
  method GetAll(ds: Store, eventKind: string, userKind: string, owner: int, now: int) returns (result: seq<Listed>)
    requires ds.Valid()
    modifies ds
    ensures ds.Valid() && ds.nextId == old(ds.nextId)
    ensures ds.entities == Evicted(old(ds.entities), eventKind, Key(userKind, owner, None), now)
    ensures result == Visible(old(ds.entities), eventKind, Key(userKind, owner, None), now)
    ensures WellFormed(old(ds.entities)) ==> WellFormed(ds.entities)
  {
    var ancestor := Key(userKind, owner, None);
    var events := Filter(ds.entities, QueryTest(eventKind, ancestor));
    ghost var start := ds.entities;
    FilterMembers(start, QueryTest(eventKind, ancestor));
    FilterAll(start, UnvisitedOrLive([], now));
    assert events[..0] == [];
    result := [];
    for i := 0 to |events|
      invariant ds.Valid() && ds.nextId == old(ds.nextId)
      invariant ds.entities == Filter(start, UnvisitedOrLive(events[..i], now))
      invariant result == LiveListed(events[..i], now)
    {
      result := VisitEvent(ds, start, events, i, now, result);
    }
    assert events[..|events|] == events;
    EvictedIsVisited(start, events, eventKind, ancestor, now);
    if WellFormed(start) {
      WellFormedFilter(start, StayTest(eventKind, ancestor, now));
    }
  }

  /** One pass of the `get_all` loop: delete the event when it is past,
      otherwise append it with its id. */
  method VisitEvent(ds: Store, ghost start: seq<Entity>, events: seq<Entity>, i: int, now: int, result: seq<Listed>)
    returns (next: seq<Listed>)
    requires 0 <= i < |events| && UniqueIds(start)
    requires forall e :: e in events ==> e in start && e.props.EventProps?
    requires ds.Valid() && ds.entities == Filter(start, UnvisitedOrLive(events[..i], now))
    requires result == LiveListed(events[..i], now)
    modifies ds
    ensures ds.Valid() && ds.nextId == old(ds.nextId)
    ensures ds.entities == Filter(start, UnvisitedOrLive(events[..i + 1], now))
    ensures next == LiveListed(events[..i + 1], now)
  {
    var e := events[i];
    assert e in events;
    LiveListedSnoc(events, i, now);
    if Midnight(e.props.date) < now {
      ds.Delete(e.key);
      EvictStep(start, events, i, now);
      next := result;
    } else {
      KeepStep(start, events, i, now);
      next := result + [Listed(e.key.id, e.props.name, e.props.date)];
    }
  }

  /** Visiting one more event lists it exactly when it is a live event. */
  lemma LiveListedSnoc(events: seq<Entity>, i: nat, now: int)
    requires i < |events|
    ensures LiveListed(events[..i + 1], now) == LiveListed(events[..i], now)
      + (if events[i].props.EventProps? && !Expired(events[i], now) then [ToListed(events[i])] else [])
  {
    assert events[..i + 1][..i] == events[..i];
  }

  /** Deleting the key of a visited past event extends the visited prefix. */
  lemma EvictStep(es: seq<Entity>, events: seq<Entity>, i: nat, now: int)
    requires UniqueIds(es) && i < |events| && forall e :: e in events ==> e in es
    requires Expired(events[i], now)
    ensures Filter(Filter(es, UnvisitedOrLive(events[..i], now)), KeyIsNot(events[i].key))
         == Filter(es, UnvisitedOrLive(events[..i + 1], now))
  {
    assert events[..i + 1] == events[..i] + [events[i]];
    assert events[i] in es;
    FilterFilter(es, UnvisitedOrLive(events[..i], now), KeyIsNot(events[i].key), UnvisitedOrLive(events[..i + 1], now));
  }

  /** Visiting an event that is not past deletes nothing. */
  lemma KeepStep(es: seq<Entity>, events: seq<Entity>, i: nat, now: int)
    requires i < |events| && !Expired(events[i], now)
    ensures Filter(es, UnvisitedOrLive(events[..i], now)) == Filter(es, UnvisitedOrLive(events[..i + 1], now))
  {
    assert events[..i + 1] == events[..i] + [events[i]];
    FilterExt(es, UnvisitedOrLive(events[..i], now), UnvisitedOrLive(events[..i + 1], now));
  }

  /** Once every fetched event is visited, the store is `Evicted`. */
  lemma EvictedIsVisited(es: seq<Entity>, events: seq<Entity>, eventKind: string, ancestor: Key, now: int)
    requires events == Filter(es, QueryTest(eventKind, ancestor))
    ensures Filter(es, UnvisitedOrLive(events, now)) == Evicted(es, eventKind, ancestor, now)
  {
    FilterMembers(es, QueryTest(eventKind, ancestor));
    FilterExt(es, UnvisitedOrLive(events, now), StayTest(eventKind, ancestor, now));
  }

  /** What `get_all` answers is exactly the owner's events that are not past,
      each with its id. */
  lemma VisibleExactly(es: seq<Entity>, eventKind: string, ancestor: Key, now: int)
    ensures forall l :: l in Visible(es, eventKind, ancestor, now) <==>
      exists e :: e in es && InQuery(e, eventKind, ancestor) && !Expired(e, now) && ToListed(e) == l
    ensures forall l :: l in Visible(es, eventKind, ancestor, now) ==> Midnight(l.date) >= now
  {
    var fetched := Filter(es, QueryTest(eventKind, ancestor));
    FilterMembers(es, QueryTest(eventKind, ancestor));
    LiveListedMembers(fetched, now);
  }

  lemma {:induction false} LiveListedMembers(es: seq<Entity>, now: int)
    ensures forall l :: l in LiveListed(es, now) <==>
      exists e :: e in es && e.props.EventProps? && !Expired(e, now) && ToListed(e) == l
  {
    if |es| > 0 {
      var init, last := es[..|es| - 1], es[|es| - 1];
      LiveListedMembers(init, now);
      assert es == init + [last];
      forall l | l in LiveListed(es, now)
        ensures exists e :: e in es && e.props.EventProps? && !Expired(e, now) && ToListed(e) == l
      {
        if l in LiveListed(init, now) {
          var e :| e in init && e.props.EventProps? && !Expired(e, now) && ToListed(e) == l;
          assert e in es;
        } else {
          assert last.props.EventProps? && !Expired(last, now) && ToListed(last) == l;
        }
      }
      forall e | e in es && e.props.EventProps? && !Expired(e, now) ensures ToListed(e) in LiveListed(es, now) {
        if e in init {
          assert ToListed(e) in LiveListed(init, now);
        }
      }
    }
  }

  /** An event added to the store is listed by the next `get_all` of its owner
      when its date is not past. */
  lemma NewEventListed(es: seq<Entity>, eventKind: string, userKind: string, id: int, owner: int, name: string, date: Date, now: int)
    requires Midnight(date) >= now
    ensures Visible(es + [EventEntity(eventKind, userKind, id, owner, name, date)], eventKind, Key(userKind, owner, None), now)
         == Visible(es, eventKind, Key(userKind, owner, None), now) + [Listed(id, name, date)]
  {
    var e := EventEntity(eventKind, userKind, id, owner, name, date);
    var q := QueryTest(eventKind, Key(userKind, owner, None));
    FilterAppend(es, [e], q);
    assert Filter([e], q) == [e] + Filter([e][1..], q);
    FilterAppend(Filter(es, q), [e], LiveTest(now));
    assert Filter([e], LiveTest(now)) == [e] + Filter([e][1..], LiveTest(now));
    FilterMembers(es, q);
    FilterMembers(Filter(es, q), LiveTest(now));
    var live := Filter(Filter(es, q), LiveTest(now));
    assert (live + [e])[..|live|] == live;
  }

  /** An event stored under another kind or another owner never shows up. */
  lemma ForeignEventNotListed(es: seq<Entity>, e: Entity, eventKind: string, ancestor: Key, now: int)
    requires !InQuery(e, eventKind, ancestor)
    ensures Visible(es + [e], eventKind, ancestor, now) == Visible(es, eventKind, ancestor, now)
  {
    var q := QueryTest(eventKind, ancestor);
    FilterAppend(es, [e], q);
    assert Filter([e], q) == [] by {
      assert !q(e) && [e][1..] == [];
      assert Filter([e], q) == [] + Filter([e][1..], q);
    }
    assert Filter(es, q) + [] == Filter(es, q);
  }

  // ---------------------------------------------------------------- events2json

  /** Non-decreasing by date, the order `events.sort(key=date)` produces. */
  predicate DateSorted(s: seq<Listed>)
  {
    forall i, j :: 0 <= i < j < |s| ==> DateLe(s[i].date, s[j].date)
  }

  /** The date order is the order of the events' timestamps. */
  lemma DateSortedIsTimeOrder(s: seq<Listed>)
    ensures DateSorted(s) <==> forall i, j :: 0 <= i < j < |s| ==> Midnight(s[i].date) <= Midnight(s[j].date)
  {
    forall i, j | 0 <= i < j < |s| ensures DateLe(s[i].date, s[j].date) <==> Midnight(s[i].date) <= Midnight(s[j].date) {
      DateLeIsTimeOrder(s[i].date, s[j].date);
    }
  }

  /** `events.sort(key=lambda event: event['date'])`, done in place by
      insertion. */
  method SortByDate(a: array<Listed>)
    modifies a
    ensures DateSorted(a[..])
    ensures multiset(a[..]) == multiset(old(a[..]))
  {
    for i := 0 to a.Length
      invariant SortedBelow(a[..], i)
      invariant multiset(a[..]) == multiset(old(a[..]))
    {
      InsertLast(a, i);
    }
    assert a[..] == a[..a.Length];
  }

  /** The first `n` elements are in date order. */
  predicate SortedBelow(s: seq<Listed>, n: int)
    requires 0 <= n <= |s|
  {
    forall k, l :: 0 <= k < l < n ==> DateLe(s[k].date, s[l].date)
  }

  /** Moves `a[i]` down into the date-ordered prefix `a[..i]` by swaps. */
  method InsertLast(a: array<Listed>, i: int)
    requires 0 <= i < a.Length && SortedBelow(a[..], i)
    modifies a
    ensures SortedBelow(a[..], i + 1)
    ensures multiset(a[..]) == multiset(old(a[..]))
  {
    var j := i;
    InsertionStart(a[..], i);
    while j > 0 && !DateLe(a[j - 1].date, a[j].date)
      invariant 0 <= j <= i
      invariant multiset(a[..]) == multiset(old(a[..]))
      invariant Inserting(a[..], i, j)
    {
      ghost var s := a[..];
      a[j - 1], a[j] := a[j], a[j - 1];
      assert a[..] == Swap(s, j);
      SwapStep(s, i, j);
      j := j - 1;
    }
    InsertionDone(a[..], i, j);
  }

  /** Midway through inserting `s[i]`: it sits at `j`, the others up to `i`
      are in date order, and it is no later than those after it. */
  predicate Inserting(s: seq<Listed>, i: int, j: int)
    requires 0 <= j <= i < |s|
  {
    && (forall k, l :: 0 <= k < l <= i && k != j && l != j ==> DateLe(s[k].date, s[l].date))
    && (forall l :: j < l <= i ==> DateLe(s[j].date, s[l].date))
  }

  /** `s` with the elements at `j - 1` and `j` exchanged. */
  function Swap(s: seq<Listed>, j: int): (t: seq<Listed>)
    requires 0 < j < |s|
    ensures multiset(t) == multiset(s)
  {
    s[j - 1 := s[j]][j := s[j - 1]]
  }

  lemma InsertionStart(s: seq<Listed>, i: int)
    requires 0 <= i < |s| && SortedBelow(s, i)
    ensures Inserting(s, i, i)
  {
  }

  /** Swapping the inserted element with a later-dated predecessor moves it one
      place down and keeps the rest in order. */
  lemma SwapStep(s: seq<Listed>, i: int, j: int)
    requires 0 < j <= i < |s| && Inserting(s, i, j) && !DateLe(s[j - 1].date, s[j].date)
    ensures Inserting(Swap(s, j), i, j - 1)
  {
  }

  /** Once its predecessor is no later, the prefix up to `i` is in date order. */
  lemma InsertionDone(s: seq<Listed>, i: int, j: int)
    requires 0 <= j <= i < |s| && Inserting(s, i, j)
    requires j == 0 || DateLe(s[j - 1].date, s[j].date)
    ensures SortedBelow(s, i + 1)
  {
  }

  /** The ETA text for `diff` seconds to go. */
  function Eta(diff: int): string
  {
    if diff < 86400 then
      IntToString(diff / 3600) + ":" + IntToString(diff / 60 % 60) + ":" + IntToString(diff % 60) + " left."
    else IntToString(diff / 86400) + " days later."
  }

  /** The ETA text of an event at `timestamp` seen at `now`. */
  function EtaAt(timestamp: int, now: int): string
  {
    Eta(timestamp - now)
  }

  function RowOf(l: Listed, now: int): Row
  {
    Row(l.name, Format(l.date), EtaAt(Midnight(l.date), now), l.id)
  }

  function RowsOf(s: seq<Listed>, now: int): (r: seq<Row>)
    ensures |r| == |s|
  {
    if |s| == 0 then [] else RowsOf(s[..|s| - 1], now) + [RowOf(s[|s| - 1], now)]
  }

  /** `events2json`: sort the list in place by date, then render each event. */
  method EventsToJson(a: array<Listed>, now: int) returns (rows: seq<Row>)
    modifies a
    ensures DateSorted(a[..])
    ensures multiset(a[..]) == multiset(old(a[..]))
    ensures rows == RowsOf(a[..], now)
  {
    SortByDate(a);
    rows := Render(a[..], now);
  }

  /** The loop of `events2json` over the sorted list: format the date and
      compute the ETA of each event. */
  method Render(events: seq<Listed>, now: int) returns (rows: seq<Row>)
    ensures rows == RowsOf(events, now)
  {
    rows := [];
    for i := 0 to |events|
      invariant rows == RowsOf(events[..i], now)
    {
      var e := events[i];
      assert events[..i + 1][..i] == events[..i];
      var eta := EtaText(Midnight(e.date), now);
      rows := rows + [Row(e.name, Format(e.date), eta, e.id)];
    }
    assert events[..|events|] == events;
  }

  /** The ETA text as the loop body builds it: seconds, then minutes, then
      hours, dividing `diff` by 60 in between. */
  method EtaText(timestamp: int, now: int) returns (eta: string)
    ensures eta == EtaAt(timestamp, now)
  {
    var diff := timestamp - now;
    var d := diff;
    if d < 86400 {
      eta := ":" + IntToString(d % 60) + " left.";
      d := d / 60;
      eta := ":" + IntToString(d % 60) + eta;
      d := d / 60;
      eta := IntToString(d) + eta;
      EtaBySteps(diff);
      assert IntToString(d) == IntToString(diff / 3600);
      ClockConcat(IntToString(d), IntToString(diff / 60 % 60), IntToString(diff % 60));
    } else {
      eta := IntToString(d / 86400) + " days later.";
    }
  }

  /** A proof step for EtaText, not a property of the source: the text the
      loop body prepends piece by piece equals the text written left to right. */
  lemma ClockConcat(h: string, m: string, s: string)
    ensures h + (":" + m + (":" + s + " left.")) == h + ":" + m + ":" + s + " left."
  {
  }

  /** Dividing by 60 twice is dividing by 3600. */
  lemma EtaBySteps(diff: int)
    ensures diff / 60 / 60 == diff / 3600
  {
    var q, s := diff / 60, diff % 60;
    var h, m := q / 60, q % 60;
    assert diff == 3600 * h + (60 * m + s);
  }

  /** Under a day, the ETA text is `h:m:s left.` whose three numbers give back
      the seconds to go, minutes and seconds below 60. */
  lemma EtaRoundTrip(diff: int)
    requires diff < 86400
    ensures var t := Eta(diff);
      && |t| >= 6 && t[|t| - 6..] == " left."
      && var parts := Split(t[..|t| - 6], ':');
         && |parts| == 3
         && ParseInt(parts[0]).Some? && ParseInt(parts[1]).Some? && ParseInt(parts[2]).Some?
         && var h, m, s := ParseInt(parts[0]).value, ParseInt(parts[1]).value, ParseInt(parts[2]).value;
            && 0 <= m < 60 && 0 <= s < 60
            && h * 3600 + m * 60 + s == diff
  {
    ClockText(diff / 3600, diff / 60 % 60, diff % 60);
    ParseIntOfIntToString(diff / 3600);
    ParseIntOfIntToString(diff / 60 % 60);
    ParseIntOfIntToString(diff % 60);
    EtaBySteps(diff);
  }

  /** `h:m:s left.` splits back into the three rendered numbers. */
  lemma ClockText(h: int, m: int, s: int)
    ensures var t := IntToString(h) + ":" + IntToString(m) + ":" + IntToString(s) + " left.";
      && |t| >= 6 && t[|t| - 6..] == " left."
      && Split(t[..|t| - 6], ':') == [IntToString(h), IntToString(m), IntToString(s)]
  {
    var hs, ms, ss := IntToString(h), IntToString(m), IntToString(s);
    var core := hs + ":" + ms + ":" + ss;
    assert Join([hs, ms, ss], ':') == core by {
      assert Join([ss], ':') == ss;
      assert Join([ms, ss], ':') == ms + ":" + ss;
    }
    var t := core + " left.";
    assert t[..|t| - 6] == core && t[|t| - 6..] == " left.";
    NoColon(h);
    NoColon(m);
    NoColon(s);
    SplitJoin([hs, ms, ss], ':');
  }

  /** A rendered integer holds no `:`. */
  lemma NoColon(n: int)
    ensures ':' !in IntToString(n)
  {
    var d := NatToString(if n < 0 then -n else n);
    assert forall i :: 0 <= i < |d| ==> d[i] != ':';
  }

  /** From a day on, the ETA counts the whole days to go. */
  lemma EtaDays(diff: int)
    requires diff >= 86400
    ensures Eta(diff) == IntToString(diff / 86400) + " days later."
    ensures var n := diff / 86400; n >= 1 && n * 86400 <= diff < (n + 1) * 86400
  {
  }
}
