/** Which Kubernetes events an application's page shows, and in what order (internal/k8s/events.go). */
module Events {
  import opened Text
  import opened Sorting

  // ---- NameDerivedFromRelease ----------------------------------------------------------

  predicate HasPrefix(s: string, prefix: string) {
    |prefix| <= |s| && s[..|prefix|] == prefix
  }

  predicate HasSuffix(s: string, suffix: string) {
    |suffix| <= |s| && s[|s| - |suffix|..] == suffix
  }

  predicate OccursAt(s: string, part: string, i: nat) {
    i + |part| <= |s| && s[i..i + |part|] == part
  }

  predicate Contains(s: string, part: string) {
    exists i | 0 <= i <= |s| :: OccursAt(s, part, i)
  }

  predicate NameDerivedFromRelease(objName: string, release: string) {
    if release == "" || objName == "" then false
    else if objName == release then true
    else if HasPrefix(objName, release + "-") then true
    else if HasSuffix(objName, "-" + release) then true
    else Contains(objName, "-" + release + "-")
  }

  /** part's elements occur in a row somewhere in whole. */
  ghost predicate ContiguousIn(part: seq<string>, whole: seq<string>) {
    exists before: seq<string>, after: seq<string> :: whole == before + part + after
  }

  lemma SegmentsOfMiddle(before: string, release: string, after: string)
    ensures Split(before + "-" + release + "-" + after, '-') ==
            Split(before, '-') + Split(release, '-') + Split(after, '-')
  {
    SplitConcat(before, '-', release);
    SplitConcat(before + "-" + release, '-', after);
  }

  lemma PrefixSegments(objName: string, release: string)
    requires HasPrefix(objName, release + "-")
    ensures ContiguousIn(Split(release, '-'), Split(objName, '-'))
  {
    var after := objName[|release| + 1..];
    assert objName == release + "-" + after;
    SplitConcat(release, '-', after);
    assert Split(objName, '-') == [] + Split(release, '-') + Split(after, '-');
  }

  lemma SuffixSegments(objName: string, release: string)
    requires HasSuffix(objName, "-" + release)
    ensures ContiguousIn(Split(release, '-'), Split(objName, '-'))
  {
    var before := objName[..|objName| - |release| - 1];
    assert objName == before + "-" + release;
    SplitConcat(before, '-', release);
    assert Split(objName, '-') == Split(before, '-') + Split(release, '-') + [];
  }

  lemma MiddleSegments(objName: string, release: string, i: nat)
    requires OccursAt(objName, "-" + release + "-", i)
    ensures ContiguousIn(Split(release, '-'), Split(objName, '-'))
  {
    var middle := "-" + release + "-";
    var before, after := objName[..i], objName[i + |middle|..];
    assert objName == before + middle + after;
    assert before + middle + after == before + "-" + release + "-" + after;
    SegmentsOfMiddle(before, release, after);
  }

  lemma DerivedHasSegments(objName: string, release: string)
    requires NameDerivedFromRelease(objName, release)
    ensures ContiguousIn(Split(release, '-'), Split(objName, '-'))
  {
    if objName == release {
      assert Split(objName, '-') == [] + Split(release, '-') + [];
    } else if HasPrefix(objName, release + "-") {
      PrefixSegments(objName, release);
    } else if HasSuffix(objName, "-" + release) {
      SuffixSegments(objName, release);
    } else {
      var i :| 0 <= i <= |objName| && OccursAt(objName, "-" + release + "-", i);
      MiddleSegments(objName, release, i);
    }
  }

  /** A name put together from segments around a release has one of the four accepted forms. */
  lemma JoinedIsDerived(before: seq<string>, part: seq<string>, after: seq<string>)
    requires part != [] && Join(part, '-') != "" && Join(before + part + after, '-') != ""
    ensures NameDerivedFromRelease(Join(before + part + after, '-'), Join(part, '-'))
  {
    var release, name := Join(part, '-'), Join(before + part + after, '-');
    if before == [] && after == [] {
      assert before + part + after == part;
    } else if before == [] {
      assert before + part + after == part + after;
      JoinConcat(part, after, '-');
      assert name[..|release| + 1] == release + "-";
    } else if after == [] {
      assert before + part + after == before + part;
      JoinConcat(before, part, '-');
      assert name[|name| - |release| - 1..] == "-" + release;
    } else {
      JoinConcat(before, part, '-');
      JoinConcat(before + part, after, '-');
      assert OccursAt(name, "-" + release + "-", |Join(before, '-')|);
    }
  }

  lemma SegmentsAreDerived(objName: string, release: string)
    requires objName != "" && release != ""
    requires ContiguousIn(Split(release, '-'), Split(objName, '-'))
    ensures NameDerivedFromRelease(objName, release)
  {
    var before: seq<string>, after: seq<string> :| Split(objName, '-') == before + Split(release, '-') + after;
    JoinSplit(objName, '-');
    JoinSplit(release, '-');
    JoinedIsDerived(before, Split(release, '-'), after);
  }

  /** An object belongs to a release exactly when the release's hyphen segments occur in a row in its name. */
  lemma DerivedIffSegments(objName: string, release: string)
    ensures NameDerivedFromRelease(objName, release) <==>
            objName != "" && release != "" && ContiguousIn(Split(release, '-'), Split(objName, '-'))
  {
    if NameDerivedFromRelease(objName, release) { DerivedHasSegments(objName, release); }
    if objName != "" && release != "" && ContiguousIn(Split(release, '-'), Split(objName, '-')) {
      SegmentsAreDerived(objName, release);
    }
  }

  // ---- the event list ----------------------------------------------------------------------

  /** A core/v1 Event, reduced to what selection, order and deduplication look at. */
  datatype RawEvent = RawEvent(kind: string, name: string, reason: string, message: string, lastSeen: int)

  datatype Event = Event(ref: string, reason: string, message: string, lastSeen: int)

  datatype Key = Key(ref: string, reason: string)

  function EventObjectRef(raw: RawEvent): string {
    if raw.kind != "" && raw.name != "" then raw.kind + "/" + raw.name else ""
  }

  function ToEvent(raw: RawEvent): Event {
    Event(EventObjectRef(raw), raw.reason, raw.message, raw.lastSeen)
  }

  function KeyOf(e: Event): Key { Key(e.ref, e.reason) }

  /** The comparison handed to sort.Slice: newest first. */
  predicate Newer(a: Event, b: Event) { a.lastSeen > b.lastSeen }

  function Capped(events: seq<Event>, limit: int): seq<Event> {
    if limit > 0 && |events| > limit then events[..limit] else events
  }

  /** Position i holds the first event of its (object, reason) pair. */
  predicate IsFirst(events: seq<Event>, i: nat)
    requires i < |events|
  {
    forall j | 0 <= j < i :: KeyOf(events[j]) != KeyOf(events[i])
  }

  /** Every first occurrence, in order. */
  function Firsts(events: seq<Event>, n: nat): seq<Event>
    requires n <= |events|
  {
    if n == 0 then []
    else Firsts(events, n - 1) + if IsFirst(events, n - 1) then [events[n - 1]] else []
  }

  /** dedupeByObjectReason, as its loop runs. */
  method DedupeByObjectReason(events: seq<Event>, limit: int) returns (out: seq<Event>)
    ensures out == Capped(Firsts(events, |events|), limit)
  {
    var seen: set<Key> := {};
    out := [];
    for i := 0 to |events|
      invariant seen == set j | 0 <= j < i :: KeyOf(events[j])
      invariant out == Firsts(events, i)
    {
      var dedupeKey := KeyOf(events[i]);
      if dedupeKey in seen {
        continue;
      }
      seen := seen + {dedupeKey};
      out := out + [events[i]];
    }
    if limit > 0 && |out| > limit {
      out := out[..limit];
    }
  }

  /** toSortedEvents before the cap: sort.Slice may return any sorted permutation. */
  ghost predicate IsSortedList(sorted: seq<Event>, events: seq<Event>) {
    IsSortOf(Newer, sorted, events)
  }

  /** Where a listed event comes from. */
  lemma {:induction false} FirstsFrom(events: seq<Event>, n: nat, a: nat) returns (i: nat)
    requires n <= |events| && a < |Firsts(events, n)|
    ensures i < n && events[i] == Firsts(events, n)[a] && IsFirst(events, i)
  {
    if a < |Firsts(events, n - 1)| {
      i := FirstsFrom(events, n - 1, a);
    } else {
      i := n - 1;
    }
  }

  lemma {:induction false} FirstsHave(events: seq<Event>, n: nat, i: nat)
    requires i < n <= |events| && IsFirst(events, i)
    ensures events[i] in Firsts(events, n)
  {
    if i < n - 1 { FirstsHave(events, n - 1, i); }
  }

  /** Listed events keep the order of the list and have distinct pairs. */
  lemma {:induction false} FirstsInOrder(events: seq<Event>, n: nat, a: nat, b: nat)
    requires n <= |events| && a < b < |Firsts(events, n)|
    ensures exists i, j :: 0 <= i < j < n && events[i] == Firsts(events, n)[a] && events[j] == Firsts(events, n)[b]
    ensures KeyOf(Firsts(events, n)[a]) != KeyOf(Firsts(events, n)[b])
  {
    if b < |Firsts(events, n - 1)| {
      FirstsInOrder(events, n - 1, a, b);
    } else {
      var i := FirstsFrom(events, n - 1, a);
      assert events[n - 1] == Firsts(events, n)[b];
    }
  }

  ghost predicate NewestFirst(events: seq<Event>) {
    forall a, b | 0 <= a < b < |events| :: events[a].lastSeen >= events[b].lastSeen
  }

  ghost predicate DistinctKeys(events: seq<Event>) {
    forall a, b | 0 <= a < b < |events| :: KeyOf(events[a]) != KeyOf(events[b])
  }

  lemma FirstsShape(sorted: seq<Event>, events: seq<Event>)
    requires IsSortedList(sorted, events)
    ensures NewestFirst(Firsts(sorted, |sorted|)) && DistinctKeys(Firsts(sorted, |sorted|))
  {
    var all := Firsts(sorted, |sorted|);
    forall a, b | 0 <= a < b < |all| ensures all[a].lastSeen >= all[b].lastSeen && KeyOf(all[a]) != KeyOf(all[b]) {
      FirstsInOrder(sorted, |sorted|, a, b);
      var i, j :| 0 <= i < j < |sorted| && sorted[i] == all[a] && sorted[j] == all[b];
      assert !Newer(sorted[j], sorted[i]);
    }
  }

  lemma {:induction false} FirstOfKey(events: seq<Event>, i: nat) returns (j: nat)
    requires i < |events|
    ensures j <= i && IsFirst(events, j) && KeyOf(events[j]) == KeyOf(events[i])
  {
    if IsFirst(events, i) {
      j := i;
    } else {
      var k :| 0 <= k < i && KeyOf(events[k]) == KeyOf(events[i]);
      j := FirstOfKey(events, k);
    }
  }

  /** e is the event a reader wants for its pair: nothing in events with the same key is newer. */
  ghost predicate NewestOfKey(e: Event, events: seq<Event>) {
    e in events && forall f | f in events && KeyOf(f) == KeyOf(e) :: f.lastSeen <= e.lastSeen
  }

  /** The first event of a pair in a sorted list is the newest of its pair. */
  lemma FirstIsNewest(sorted: seq<Event>, events: seq<Event>, i: nat)
    requires IsSortedList(sorted, events) && i < |sorted| && IsFirst(sorted, i)
    ensures NewestOfKey(sorted[i], events)
  {
    PermutationMembers(sorted, events);
    assert sorted[i] in sorted;
    forall f | f in events && KeyOf(f) == KeyOf(sorted[i]) ensures f.lastSeen <= sorted[i].lastSeen {
      assert f in sorted;
      var j :| 0 <= j < |sorted| && sorted[j] == f;
      assert i <= j;
      assert i < j ==> !Newer(sorted[j], sorted[i]);
    }
  }

  /** Every event of the list has its pair among the first occurrences, no older than itself. */
  lemma PairIsListed(sorted: seq<Event>, events: seq<Event>, f: Event) returns (a: nat)
    requires IsSortedList(sorted, events) && f in events
    ensures a < |Firsts(sorted, |sorted|)| && KeyOf(Firsts(sorted, |sorted|)[a]) == KeyOf(f)
    ensures NewestOfKey(Firsts(sorted, |sorted|)[a], events)
  {
    PermutationMembers(sorted, events);
    assert f in sorted;
    var i :| 0 <= i < |sorted| && sorted[i] == f;
    var j := FirstOfKey(sorted, i);
    FirstIsNewest(sorted, events, j);
    FirstsHave(sorted, |sorted|, j);
    a :| 0 <= a < |Firsts(sorted, |sorted|)| && Firsts(sorted, |sorted|)[a] == sorted[j];
  }

  ghost predicate Shown(k: Key, out: seq<Event>) {
    exists a :: 0 <= a < |out| && KeyOf(out[a]) == k
  }

  /**
    Whatever permutation the sort chose: one event per (object, reason) pair, each the newest of its
    pair, newest first; and a pair that does not fit under the limit is no newer than any event shown.
   */
  lemma EventListIsRight(events: seq<Event>, sorted: seq<Event>, limit: int)
    requires IsSortedList(sorted, events)
    ensures var out := Capped(Firsts(sorted, |sorted|), limit);
            && (limit > 0 ==> |out| <= limit)
            && DistinctKeys(out) && NewestFirst(out)
            && (forall a | 0 <= a < |out| :: NewestOfKey(out[a], events))
            && (forall f | f in events && !Shown(KeyOf(f), out) ::
                  limit > 0 && |out| == limit && forall a | 0 <= a < |out| :: out[a].lastSeen >= f.lastSeen)
  {
    var all := Firsts(sorted, |sorted|);
    var out := Capped(all, limit);
    FirstsShape(sorted, events);
    forall a | 0 <= a < |out| ensures NewestOfKey(out[a], events) {
      var i := FirstsFrom(sorted, |sorted|, a);
      FirstIsNewest(sorted, events, i);
    }
    forall f | f in events && !Shown(KeyOf(f), out)
      ensures limit > 0 && |out| == limit && forall a | 0 <= a < |out| :: out[a].lastSeen >= f.lastSeen
    {
      var a := PairIsListed(sorted, events, f);
      assert a >= |out|;
    }
  }

  // ---- what the unstable sort can and cannot change ---------------------------------------------

  /** A shown event as its pair and time: what does not depend on the sort. */
  function Stamp(e: Event): (Key, int) { (KeyOf(e), e.lastSeen) }

  function TimeOf(stamp: (Key, int)): int { stamp.1 }

  predicate Later(a: int, b: int) { a > b }

  lemma StampsOfFirsts(events: seq<Event>, sorted: seq<Event>, stamp: (Key, int))
    requires IsSortedList(sorted, events)
    ensures stamp in Map(Stamp, Firsts(sorted, |sorted|)) <==>
            exists e :: NewestOfKey(e, events) && Stamp(e) == stamp
  {
    var all := Firsts(sorted, |sorted|);
    if stamp in Map(Stamp, all) {
      var a :| 0 <= a < |all| && Map(Stamp, all)[a] == stamp;
      var i := FirstsFrom(sorted, |sorted|, a);
      FirstIsNewest(sorted, events, i);
    }
    if e :| NewestOfKey(e, events) && Stamp(e) == stamp {
      var a := PairIsListed(sorted, events, e);
      assert Map(Stamp, all)[a] == stamp;
    }
  }

  /** Two runs of the unstable sort may show different events on ties, but never different times in any row. */
  lemma ShownTimesAreDetermined(events: seq<Event>, sorted: seq<Event>, sorted': seq<Event>, limit: int)
    requires IsSortedList(sorted, events) && IsSortedList(sorted', events)
    ensures var out, out' := Capped(Firsts(sorted, |sorted|), limit), Capped(Firsts(sorted', |sorted'|), limit);
            |out| == |out'| && forall i | 0 <= i < |out| :: out[i].lastSeen == out'[i].lastSeen
  {
    var all, all' := Firsts(sorted, |sorted|), Firsts(sorted', |sorted'|);
    var stamps, stamps' := Map(Stamp, all), Map(Stamp, all');
    FirstsShape(sorted, events);
    FirstsShape(sorted', events);
    forall x ensures x in stamps <==> x in stamps' {
      StampsOfFirsts(events, sorted, x);
      StampsOfFirsts(events, sorted', x);
    }
    DistinctPermutation(stamps, stamps');
    MapPermutes(TimeOf, stamps, stamps');
    var times, times' := Map(TimeOf, stamps), Map(TimeOf, stamps');
    SortUnique(Later, times, times');
    assert |all| == |times| && |all'| == |times'|;
    forall i | 0 <= i < |all| ensures all[i].lastSeen == times[i] && all'[i].lastSeen == times'[i] {
      assert stamps[i] == Stamp(all[i]) && stamps'[i] == Stamp(all'[i]);
    }
  }

  // ---- ListForObject ------------------------------------------------------------------------------

  function Matched(items: seq<RawEvent>, release: string): seq<Event> {
    if items == [] then []
    else
      var last := items[|items| - 1];
      Matched(items[..|items| - 1], release) +
      if NameDerivedFromRelease(last.name, release) then [ToEvent(last)] else []
  }

  predicate SelectedAt(items: seq<RawEvent>, release: string, e: Event, i: int) {
    0 <= i < |items| && ToEvent(items[i]) == e && NameDerivedFromRelease(items[i].name, release)
  }

  lemma {:induction false} MatchedMembers(items: seq<RawEvent>, release: string, e: Event)
    ensures e in Matched(items, release) <==> exists i :: SelectedAt(items, release, e, i)
  {
    if items != [] {
      var init := items[..|items| - 1];
      MatchedMembers(init, release, e);
      if i :| SelectedAt(init, release, e, i) {
        assert SelectedAt(items, release, e, i);
      }
      assert e in Matched(items, release) && e !in Matched(init, release) ==> SelectedAt(items, release, e, |init|);
      if i :| SelectedAt(items, release, e, i) {
        if i < |init| {
          assert SelectedAt(init, release, e, i);
        } else {
          assert Matched(items, release) == Matched(init, release) + [e];
        }
      }
    }
  }

  /** The selection loop of ListForObject. */
  method SelectForObject(items: seq<RawEvent>, release: string) returns (matched: seq<Event>)
    ensures matched == Matched(items, release)
  {
    matched := [];
    for idx := 0 to |items|
      invariant matched == Matched(items[..idx], release)
    {
      assert items[..idx + 1][..idx] == items[..idx];
      if NameDerivedFromRelease(items[idx].name, release) {
        matched := matched + [ToEvent(items[idx])];
      }
    }
    assert items[..|items|] == items;
  }

  /** Some event of the list belongs to the release and has this pair. */
  ghost predicate Relevant(items: seq<RawEvent>, release: string, k: Key) {
    exists e, i :: SelectedAt(items, release, e, i) && KeyOf(e) == k
  }

  /**
    The Events tab of one release, for any result of the sort: it shows only pairs the release has,
    and all of them unless the limit is reached.
   */
  lemma EventsTabIsRight(items: seq<RawEvent>, release: string, sorted: seq<Event>, limit: int, k: Key)
    requires IsSortedList(sorted, Matched(items, release))
    ensures var out := Capped(Firsts(sorted, |sorted|), limit);
            && (Shown(k, out) ==> Relevant(items, release, k))
            && (Relevant(items, release, k) ==> Shown(k, out) || (limit > 0 && |out| == limit))
  {
    var events := Matched(items, release);
    EventListIsRight(events, sorted, limit);
    var out := Capped(Firsts(sorted, |sorted|), limit);
    if a :| 0 <= a < |out| && KeyOf(out[a]) == k {
      assert NewestOfKey(out[a], events);
      MatchedMembers(items, release, out[a]);
    }
    if e, i :| SelectedAt(items, release, e, i) && KeyOf(e) == k {
      MatchedMembers(items, release, e);
    }
  }

  // ---- the tab, in terms of the listed objects alone ---------------------------------------------

  /** e is the row that a listed event gives. */
  predicate IsRowOf(e: Event, raw: RawEvent) {
    && e.ref == (if raw.kind == "" || raw.name == "" then "" else raw.kind + "/" + raw.name)
    && e.reason == raw.reason && e.message == raw.message && e.lastSeen == raw.lastSeen
  }

  /** Some listed event of the release gives this row. */
  ghost predicate ComesFrom(e: Event, items: seq<RawEvent>, release: string) {
    exists i :: 0 <= i < |items| && NameDerivedFromRelease(items[i].name, release) && IsRowOf(e, items[i])
  }

  lemma ComesFromIff(e: Event, items: seq<RawEvent>, release: string)
    ensures ComesFrom(e, items, release) <==> e in Matched(items, release)
  {
    MatchedMembers(items, release, e);
    if i :| 0 <= i < |items| && NameDerivedFromRelease(items[i].name, release) && IsRowOf(e, items[i]) {
      assert SelectedAt(items, release, e, i);
    }
    if i :| SelectedAt(items, release, e, i) { assert IsRowOf(e, items[i]); }
  }

  predicate SamePair(e: Event, f: Event) { e.ref == f.ref && e.reason == f.reason }

  lemma SamePairIsKey(e: Event, f: Event)
    ensures SamePair(e, f) <==> KeyOf(e) == KeyOf(f)
  {
  }

  /** For any result of the sort, no two rows share object and reason, and rows are newest first. */
  lemma RowsAreOrdered(events: seq<Event>, sorted: seq<Event>, limit: int, a: nat, b: nat)
    requires IsSortedList(sorted, events) && a < b < |Capped(Firsts(sorted, |sorted|), limit)|
    ensures var out := Capped(Firsts(sorted, |sorted|), limit);
            !SamePair(out[a], out[b]) && out[a].lastSeen >= out[b].lastSeen
  {
    EventListIsRight(events, sorted, limit);
    var out := Capped(Firsts(sorted, |sorted|), limit);
    SamePairIsKey(out[a], out[b]);
  }

  /** The pair of e is shown, by a row that is no older. */
  ghost predicate ShownInstead(e: Event, out: seq<Event>) {
    exists a :: 0 <= a < |out| && SamePair(out[a], e) && out[a].lastSeen >= e.lastSeen
  }

  lemma PairIsShownOrCapped(events: seq<Event>, sorted: seq<Event>, limit: int, e: Event)
    requires IsSortedList(sorted, events) && e in events
    ensures var out := Capped(Firsts(sorted, |sorted|), limit);
            || ShownInstead(e, out)
            || (limit > 0 && |out| == limit && forall a | 0 <= a < |out| :: out[a].lastSeen >= e.lastSeen)
  {
    EventListIsRight(events, sorted, limit);
    var out := Capped(Firsts(sorted, |sorted|), limit);
    if Shown(KeyOf(e), out) {
      var a :| 0 <= a < |out| && KeyOf(out[a]) == KeyOf(e);
      SamePairIsKey(out[a], e);
      assert NewestOfKey(out[a], events);
    }
  }

  /**
    For any result of the sort: every row comes from a listed event of the release, and every listed event of
    the release has a row with its object and reason that is not older, unless the limit is reached and no
    row at all is older.
   */
  lemma TabShowsListedEvents(items: seq<RawEvent>, release: string, sorted: seq<Event>, limit: int, e: Event)
    requires IsSortedList(sorted, Matched(items, release))
    ensures var out := Capped(Firsts(sorted, |sorted|), limit);
            && (e in out ==> ComesFrom(e, items, release))
            && (ComesFrom(e, items, release) ==>
                  || ShownInstead(e, out)
                  || (limit > 0 && |out| == limit && forall a | 0 <= a < |out| :: out[a].lastSeen >= e.lastSeen))
  {
    var events, out := Matched(items, release), Capped(Firsts(sorted, |sorted|), limit);
    ComesFromIff(e, items, release);
    if e in events { PairIsShownOrCapped(events, sorted, limit, e); }
    EventListIsRight(events, sorted, limit);
    if a :| 0 <= a < |out| && out[a] == e { assert NewestOfKey(out[a], events); }
  }
}
