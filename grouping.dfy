/** The first half of `create_day_images` in gen.py: the events are grouped
    by their raw 'Date' string into a dictionary that keeps its keys in
    insertion order, each bucket listing that day's events in input order.

    Python's `dict` is modelled by the list of its keys, in insertion order,
    and a map from each key to its bucket. */
module DayGrouping {

  /** One row of the events table: the 'Date', 'Event title' and 'Time'
      columns the cards use. */
  datatype Event = Event(date: string, title: string, time: string)

  // ---------------------------------------------------------------------
  // Specification: the keys and buckets of a sequence of events, defined
  // by what the last event adds to those of the events before it.

  /** The distinct dates of `events`, in the order of their first
      occurrence. */
  function DistinctDates(events: seq<Event>): seq<string>
    decreases |events|
  {
    if events == [] then []
    else
      var keys := DistinctDates(events[..|events| - 1]);
      var date := events[|events| - 1].date;
      if date in keys then keys else keys + [date]
  }

  /** The events dated `date`, in input order. */
  function Bucket(events: seq<Event>, date: string): seq<Event>
    decreases |events|
  {
    if events == [] then []
    else
      var bucket := Bucket(events[..|events| - 1], date);
      var last := events[|events| - 1];
      if last.date == date then bucket + [last] else bucket
  }

  /** The set of dates that occur in `events`. */
  function DateSet(events: seq<Event>): set<string> {
    set event | event in events :: event.date
  }

  /** The buckets of `keys`, one after the other. */
  function Concatenation(events: seq<Event>, keys: seq<string>): seq<Event>
    decreases |keys|
  {
    if keys == [] then [] else Bucket(events, keys[0]) + Concatenation(events, keys[1..])
  }

  /** The indices of the events dated `date`, in increasing order. */
  function Positions(events: seq<Event>, date: string): seq<nat>
    decreases |events|
  {
    if events == [] then []
    else
      var positions := Positions(events[..|events| - 1], date);
      if events[|events| - 1].date == date then positions + [|events| - 1] else positions
  }

  predicate NoDuplicates(keys: seq<string>) {
    forall i, j :: 0 <= i < j < |keys| ==> keys[i] != keys[j]
  }

  // ---------------------------------------------------------------------
  // The loop of gen.py:29-33.

  /** `days = {}; for event in events: ... days[date].append(event)`. */
  method GroupByDate(events: seq<Event>) returns (keys: seq<string>, days: map<string, seq<Event>>)
    ensures keys == DistinctDates(events)
    ensures forall date :: date in days <==> date in keys
    ensures forall date :: date in days ==> days[date] == Bucket(events, date)
  {
    keys, days := [], map[];
    var i := 0;
    while i < |events|
      invariant 0 <= i <= |events|
      invariant keys == DistinctDates(events[..i])
      invariant forall date :: date in days <==> date in keys
      invariant forall date :: date in days ==> days[date] == Bucket(events[..i], date)
    {
      var event := events[i];
      var date := event.date;
      assert events[..i + 1][..i] == events[..i];
      if date !in days {
        UnseenDateHasEmptyBucket(events[..i], date);
        keys := keys + [date];
        days := days[date := []];
      }
      days := days[date := days[date] + [event]];
      i := i + 1;
    }
    assert events[..i] == events;
  }

  // ---------------------------------------------------------------------
  // Properties of the grouping.

  /** A date is a key exactly when some event carries it. */
  lemma {:induction false} DistinctDatesMembership(events: seq<Event>, date: string)
    ensures date in DistinctDates(events) <==> exists i :: 0 <= i < |events| && events[i].date == date
    decreases |events|
  {
    if events != [] {
      var init := events[..|events| - 1];
      DistinctDatesMembership(init, date);
      if exists i :: 0 <= i < |init| && init[i].date == date {
        var i :| 0 <= i < |init| && init[i].date == date;
        assert events[i] == init[i];
      }
      if exists i :: 0 <= i < |events| && events[i].date == date {
        var i :| 0 <= i < |events| && events[i].date == date;
        if i < |init| {
          assert init[i] == events[i];
        }
      }
    }
  }

  /** A date no event carries has an empty bucket. */
  lemma {:induction false} UnseenDateHasEmptyBucket(events: seq<Event>, date: string)
    requires date !in DistinctDates(events)
    ensures Bucket(events, date) == []
    decreases |events|
  {
    if events != [] {
      var init := events[..|events| - 1];
      assert date !in DistinctDates(init);
      UnseenDateHasEmptyBucket(init, date);
    }
  }

  /** Each date is a key only once. */
  lemma {:induction false} DistinctDatesHaveNoDuplicates(events: seq<Event>)
    ensures NoDuplicates(DistinctDates(events))
    decreases |events|
  {
    if events != [] {
      DistinctDatesHaveNoDuplicates(events[..|events| - 1]);
    }
  }

  /** There are as many buckets as distinct dates. */
  lemma {:induction false} KeyCountIsDateCount(events: seq<Event>)
    ensures |DistinctDates(events)| == |DateSet(events)|
    decreases |events|
  {
    if events != [] {
      var init := events[..|events| - 1];
      var last := events[|events| - 1];
      KeyCountIsDateCount(init);
      assert events == init + [last];
      assert DateSet(events) == DateSet(init) + {last.date};
      DistinctDatesMembership(init, last.date);
      if last.date in DistinctDates(init) {
        var i :| 0 <= i < |init| && init[i].date == last.date;
        assert init[i] in init;
        assert DateSet(events) == DateSet(init);
      } else {
        forall event | event in init ensures event.date != last.date {
          var i :| 0 <= i < |init| && init[i] == event;
        }
        assert |DateSet(init) + {last.date}| == |DateSet(init)| + 1;
      }
    }
  }

  /** The keys appear in the order their dates first occur: whenever an
      event carries a later key, an earlier event carries each earlier key. */
  lemma {:induction false} KeysInFirstOccurrenceOrder(events: seq<Event>, i: nat, j: nat, q: nat)
    requires i < j < |DistinctDates(events)| && q < |events|
    requires events[q].date == DistinctDates(events)[j]
    ensures exists p :: 0 <= p < q && events[p].date == DistinctDates(events)[i]
    decreases |events|
  {
    var init := events[..|events| - 1];
    var keys, initKeys := DistinctDates(events), DistinctDates(init);
    assert keys[..|initKeys|] == initKeys;
    if q < |init| {
      assert init[q] == events[q];
      DistinctDatesMembership(init, events[q].date);
      assert keys[j] in initKeys;
      KeysInFirstOccurrenceOrder(init, i, j, q);
      var p :| 0 <= p < q && init[p].date == initKeys[i];
      assert events[p] == init[p];
    } else {
      assert initKeys[i] == keys[i];
      DistinctDatesMembership(init, keys[i]);
      var p :| 0 <= p < |init| && init[p].date == keys[i];
      assert events[p] == init[p];
    }
  }

  /** Every event of a bucket carries its key. */
  lemma {:induction false} BucketHoldsItsDate(events: seq<Event>, date: string)
    ensures forall event :: event in Bucket(events, date) ==> event.date == date
    decreases |events|
  {
    if events != [] {
      BucketHoldsItsDate(events[..|events| - 1], date);
    }
  }

  /** A bucket holds each event dated `date` as often as the input does, and
      no other event. */
  lemma {:induction false} BucketCounts(events: seq<Event>, date: string, event: Event)
    ensures multiset(Bucket(events, date))[event]
         == if event.date == date then multiset(events)[event] else 0
    decreases |events|
  {
    if events != [] {
      var init := events[..|events| - 1];
      BucketCounts(init, date, event);
      assert events == init + [events[|events| - 1]];
    }
  }

  /** Every event lands in the bucket of its own date and in no other. */
  lemma EventInItsOwnBucket(events: seq<Event>, i: nat, date: string)
    requires i < |events|
    ensures events[i].date in DistinctDates(events)
    ensures events[i] in Bucket(events, events[i].date)
    ensures date != events[i].date ==> events[i] !in Bucket(events, date)
  {
    DistinctDatesMembership(events, events[i].date);
    BucketCounts(events, events[i].date, events[i]);
    assert events[i] in multiset(events);
    BucketHoldsItsDate(events, date);
  }

  /** With distinct keys, the buckets of `keys` together hold each event
      whose date is a key as often as the input does. */
  lemma {:induction false} ConcatenationCounts(events: seq<Event>, keys: seq<string>, event: Event)
    requires NoDuplicates(keys)
    ensures multiset(Concatenation(events, keys))[event]
         == if event.date in keys then multiset(events)[event] else 0
    decreases |keys|
  {
    if keys != [] {
      assert NoDuplicates(keys[1..]) by {
        forall i, j | 0 <= i < j < |keys[1..]| ensures keys[1..][i] != keys[1..][j] {
          assert keys[1..][i] == keys[i + 1] && keys[1..][j] == keys[j + 1];
        }
      }
      ConcatenationCounts(events, keys[1..], event);
      BucketCounts(events, keys[0], event);
      assert event.date in keys <==> event.date == keys[0] || event.date in keys[1..] by {
        assert keys == [keys[0]] + keys[1..];
      }
      forall k | 0 <= k < |keys| - 1 ensures keys[1..][k] != keys[0] {
        assert keys[1..][k] == keys[k + 1];
      }
    }
  }

  /** Concatenating the buckets in key order gives a permutation of the
      input. */
  lemma BucketsArePermutation(events: seq<Event>)
    ensures multiset(Concatenation(events, DistinctDates(events))) == multiset(events)
  {
    var keys := DistinctDates(events);
    DistinctDatesHaveNoDuplicates(events);
    forall event | true
      ensures multiset(Concatenation(events, keys))[event] == multiset(events)[event]
    {
      ConcatenationCounts(events, keys, event);
      if event in events {
        var i :| 0 <= i < |events| && events[i] == event;
        DistinctDatesMembership(events, event.date);
      }
    }
  }

  /** A bucket lists exactly the events of its date, in input order: it is
      the subsequence of the events at the strictly increasing positions
      that carry that date. */
  lemma {:induction false} BucketIsStable(events: seq<Event>, date: string)
    ensures var positions := Positions(events, date);
      |positions| == |Bucket(events, date)|
      && (forall k :: 0 <= k < |positions| ==>
            positions[k] < |events| && Bucket(events, date)[k] == events[positions[k]])
      && (forall k, m :: 0 <= k < m < |positions| ==> positions[k] < positions[m])
      && (forall i :: 0 <= i < |events| ==> (events[i].date == date <==> i in positions))
    decreases |events|
  {
    if events != [] {
      var init := events[..|events| - 1];
      BucketIsStable(init, date);
      var positions := Positions(events, date);
      var initPositions := Positions(init, date);
      assert forall k :: 0 <= k < |initPositions| ==> initPositions[k] < |init|;
      forall i | 0 <= i < |events| ensures events[i].date == date <==> i in positions {
        if i < |init| {
          assert events[i] == init[i];
        }
      }
    }
  }

  /** Events dated d1, d2, d1 give the keys d1 then d2; the first bucket
      holds the first and third events, the second the middle one. */
  lemma {:induction false} RepeatedFirstDate(e1: Event, e2: Event, e3: Event)
    requires e1.date == e3.date && e1.date != e2.date
    ensures DistinctDates([e1, e2, e3]) == [e1.date, e2.date]
    ensures Bucket([e1, e2, e3], e1.date) == [e1, e3]
    ensures Bucket([e1, e2, e3], e2.date) == [e2]
  {
    var s1, s2, s3 := [e1], [e1, e2], [e1, e2, e3];
    assert s1[..0] == [] && s2[..1] == s1 && s3[..2] == s2;
    assert DistinctDates(s1) == [e1.date];
    assert Bucket(s1, e1.date) == [e1] && Bucket(s1, e2.date) == [];
    assert DistinctDates(s2) == [e1.date, e2.date];
    assert Bucket(s2, e1.date) == [e1] && Bucket(s2, e2.date) == [e2];
  }

  /** Dates "3 June", "5 June", "3 June" give the keys "3 June" then
      "5 June", with two events in the first bucket and one in the second. */
  lemma ThreeEventExample(e1: Event, e2: Event, e3: Event)
    requires e1.date == "3 June" && e2.date == "5 June" && e3.date == "3 June"
    ensures DistinctDates([e1, e2, e3]) == ["3 June", "5 June"]
    ensures Bucket([e1, e2, e3], "3 June") == [e1, e3]
    ensures Bucket([e1, e2, e3], "5 June") == [e2]
  {
    assert e1.date != e2.date by { assert e1.date[0] != e2.date[0]; }
    RepeatedFirstDate(e1, e2, e3);
  }
}
