/**
 * Boot markers in a UART transcript. A transcript is a byte string; it is written here with one
 * character per byte.
 */
module UartEvidence {
  import opened Bytes

  const STAGE1: seq<string> := [
    "Entering iBootStage1 recovery mode, starting command prompt",
    "Supervisor iBootStage1"]
  const PROMPT: string := "Entering iBootStage2" + " recovery mode, " + "starting command" + " prompt"
  const FRAME: string := "======== " + "Start of iBootStage2" + " serial output. ========"
  const STAGE2: seq<string> := [PROMPT, "Supervisor iBootStage2", FRAME]
  const XNU: seq<string> := ["Darwin Kernel Version", "Darwin Kernel"]
  const USERSPACE: seq<string> := ["launchd:", "launchd ", "loginwindow", "WindowServer"]
  const BANNER := "Darwin Kernel Version"
  const WINDOW: nat := 256
  const MAX_MAJOR: nat := 99

  // The kernel version after a banner.

  predicate IsSpace(c: char) { c in {' ', '\t', '\n', '\r', 11 as char, 12 as char} }

  predicate IsDigit(c: char) { '0' <= c <= '9' }

  lemma Digits(c: char)
    ensures IsDigit(c) <==> c in "0123456789"
  {
    var digits := "0123456789";
    if IsDigit(c) {
      assert digits[c as int - 48] == c;
    }
  }

  predicate At(data: string, position: nat, marker: string) {
    position + |marker| <= |data| && data[position..position + |marker|] == marker
  }

  function SkipSpaces(w: string, i: nat): (j: nat)
    requires i <= |w|
    ensures i <= j <= |w|
    decreases |w| - i
  {
    if i < |w| && IsSpace(w[i]) then SkipSpaces(w, i + 1) else i
  }

  function SkipDigits(w: string, i: nat): (j: nat)
    requires i <= |w|
    ensures i <= j <= |w|
    decreases |w| - i
  {
    if i < |w| && IsDigit(w[i]) then SkipDigits(w, i + 1) else i
  }

  /** int(digits) */
  function Value(digits: string): nat
    requires forall i | 0 <= i < |digits| :: IsDigit(digits[i])
  {
    if digits == [] then 0
    else
      assert IsDigit(digits[|digits| - 1]);
      10 * Value(digits[..|digits| - 1]) + (digits[|digits| - 1] as int - '0' as int)
  }

  /** Where the digits of a banner that starts here begin and end; they take all that is there. */
  function VersionAt(w: string, i: nat): Option<(nat, nat)> {
    if !At(w, i, BANNER) then None
    else
      var start := SkipSpaces(w, i + |BANNER|);
      var end := SkipDigits(w, start);
      if start > i + |BANNER| && end > start then Some((start, end)) else None
  }

  /** The leftmost match of the version pattern. */
  function Search(w: string, i: nat): Option<(nat, nat)>
    requires i <= |w|
    decreases |w| - i
  {
    if VersionAt(w, i).Some? then VersionAt(w, i)
    else if i < |w| then Search(w, i + 1)
    else None
  }

  lemma {:induction false} DigitsFrom(w: string, i: nat)
    requires i <= |w|
    ensures forall k | i <= k < SkipDigits(w, i) :: IsDigit(w[k])
    ensures SkipDigits(w, i) < |w| ==> !IsDigit(w[SkipDigits(w, i)])
    decreases |w| - i
  {
    if i < |w| && IsDigit(w[i]) {
      DigitsFrom(w, i + 1);
    }
  }

  lemma {:induction false} SpacesFrom(w: string, i: nat)
    requires i <= |w|
    ensures forall k | i <= k < SkipSpaces(w, i) :: IsSpace(w[k])
    ensures SkipSpaces(w, i) < |w| ==> !IsSpace(w[SkipSpaces(w, i)])
    decreases |w| - i
  {
    if i < |w| && IsSpace(w[i]) {
      SpacesFrom(w, i + 1);
    }
  }

  /** A match is a run of digits, after a space, that the window or another character ends. */
  lemma {:induction false} SearchFacts(w: string, i: nat)
    requires i <= |w| && Search(w, i).Some?
    ensures var (start, end) := Search(w, i).value;
            && 0 < start < end <= |w| && IsSpace(w[start - 1])
            && (forall k | start <= k < end :: IsDigit(w[k]))
            && (end < |w| ==> !IsDigit(w[end]))
    decreases |w| - i
  {
    if VersionAt(w, i).Some? {
      var start := SkipSpaces(w, i + |BANNER|);
      SpacesFrom(w, i + |BANNER|);
      DigitsFrom(w, start);
      assert IsSpace(w[start - 1]);
    } else {
      SearchFacts(w, i + 1);
    }
  }

  /** The major the first match of a window stands for: one to ninety-nine, or nothing. */
  function MajorOf(w: string): Option<nat> {
    if Search(w, 0).None? then None
    else
      SearchFacts(w, 0);
      var (start, end) := Search(w, 0).value;
      var value := Value(w[start..end]);
      if 1 <= value <= MAX_MAJOR then Some(value) else None
  }

  /** The part of the transcript searched for the version behind a marker. */
  function Window(data: string, p: nat): string
    requires p <= |data|
  {
    data[p..Min(p + WINDOW, |data|)]
  }

  /** The kernel major reported for a marker at this position. */
  function MajorAt(data: string, position: nat): Option<nat>
    requires position <= |data|
  {
    MajorOf(Window(data, position))
  }

  // The markers.

  /** data.find(marker, start) */
  function Find(data: string, marker: string, start: nat): (p: Option<nat>)
    ensures p.Some? ==> start <= p.value && At(data, p.value, marker)
    ensures p.Some? ==> forall q | start <= q < p.value :: !At(data, q, marker)
    ensures p.None? ==> forall q | start <= q :: !At(data, q, marker)
    decreases |data| - start
  {
    if start + |marker| > |data| then None
    else if At(data, start, marker) then Some(start)
    else Find(data, marker, start + 1)
  }

  function Stride(marker: string): nat { if marker == "" then 1 else |marker| }

  /** The places at which the search stops; it goes on behind each. */
  function Hits(data: string, marker: string, start: nat): seq<nat>
    decreases |data| + 1 - start
  {
    match Find(data, marker, start)
    case None => []
    case Some(p) => [p] + Hits(data, marker, p + Stride(marker))
  }

  datatype Item = Item(marker: string, offset: nat, major: Option<nat>)

  function Offsets(items: seq<Item>): set<nat> { set item | item in items :: item.offset }

  function Entry(data: string, marker: string, offset: nat, kernel: bool): Item
    requires offset <= |data|
  {
    Item(marker, offset, if kernel then MajorAt(data, offset) else None)
  }

  function Inside(hits: seq<nat>, data: string): bool { forall i | 0 <= i < |hits| :: hits[i] <= |data| }

  /** One marker after the other; a place already taken keeps the marker that took it. */
  function AddHits(items: seq<Item>, data: string, marker: string, hits: seq<nat>, kernel: bool): seq<Item>
    requires Inside(hits, data)
    decreases |hits|
  {
    if hits == [] then items
    else
      AddHits(if hits[0] in Offsets(items) then items else items + [Entry(data, marker, hits[0], kernel)],
              data, marker, hits[1..], kernel)
  }

  function Collect(data: string, markers: seq<string>, kernel: bool): seq<Item>
    decreases |markers|
  {
    if markers == [] then []
    else
      var last := markers[|markers| - 1];
      HitsInside(data, last, 0);
      AddHits(Collect(data, markers[..|markers| - 1], kernel), data, last, Hits(data, last, 0), kernel)
  }

  lemma {:induction false} HitsInside(data: string, marker: string, start: nat)
    ensures Inside(Hits(data, marker, start), data)
    ensures forall p | p in Hits(data, marker, start) :: start <= p && At(data, p, marker)
    decreases |data| + 1 - start
  {
    var first := Find(data, marker, start);
    if first.Some? {
      HitsInside(data, marker, first.value + Stride(marker));
    }
  }

  function Insert(item: Item, items: seq<Item>): seq<Item> {
    if items == [] || item.offset <= items[0].offset then [item] + items
    else [items[0]] + Insert(item, items[1..])
  }

  function Sort(items: seq<Item>): seq<Item> {
    if items == [] then [] else Insert(items[0], Sort(items[1..]))
  }

  /** The evidence of one category: what was collected, by offset. */
  function Found(data: string, markers: seq<string>, kernel: bool): seq<Item> {
    Sort(Collect(data, markers, kernel))
  }

  method Occurrences(data: string, markers: seq<string>, kernel: bool) returns (found: seq<Item>)
    ensures found == Found(data, markers, kernel)
  {
    hide MajorAt, Find, Hits, AddHits;
    found := [];
    for i := 0 to |markers|
      invariant found == Collect(data, markers[..i], kernel)
    {
      HitsInside(data, markers[i], 0);
      assert markers[..i + 1][..i] == markers[..i];
      found := SearchMarker(data, markers[i], found, kernel);
    }
    assert markers[..|markers|] == markers;
    found := Sort(found);
  }

  lemma NoMoreHits(found: seq<Item>, data: string, marker: string, start: nat, kernel: bool)
    requires Find(data, marker, start).None?
    ensures Inside(Hits(data, marker, start), data)
    ensures AddHits(found, data, marker, Hits(data, marker, start), kernel) == found
  {
  }

  /** One step of the search: the place it stops at is added if it is new, and the search goes on behind it. */
  lemma NextHit(found: seq<Item>, data: string, marker: string, start: nat, kernel: bool)
    requires Find(data, marker, start).Some? && Inside(Hits(data, marker, start), data)
    ensures var position := Find(data, marker, start).value;
            && position <= |data| && Inside(Hits(data, marker, position + Stride(marker)), data)
            && AddHits(found, data, marker, Hits(data, marker, start), kernel)
               == AddHits(if position in Offsets(found) then found else found + [Entry(data, marker, position, kernel)],
                          data, marker, Hits(data, marker, position + Stride(marker)), kernel)
  {
    hide MajorAt, Find;
    var hits, position := Hits(data, marker, start), Find(data, marker, start).value;
    assert hits[0] == position;
    assert hits[1..] == Hits(data, marker, position + Stride(marker));
    assert forall i | 0 <= i < |hits[1..]| :: hits[1..][i] == hits[i + 1];
  }

  /** The search for one marker, from the start of the transcript. */
  method SearchMarker(data: string, marker: string, before: seq<Item>, kernel: bool) returns (found: seq<Item>)
    requires Inside(Hits(data, marker, 0), data)
    ensures found == AddHits(before, data, marker, Hits(data, marker, 0), kernel)
  {
    hide MajorAt, Find, Hits, AddHits, Inside;
    found := before;

    var seen, start := Offsets(before), 0;
    while true
      invariant Inside(Hits(data, marker, start), data)
      invariant seen == Offsets(found)
      invariant AddHits(found, data, marker, Hits(data, marker, start), kernel)
                == AddHits(before, data, marker, Hits(data, marker, 0), kernel)
      decreases |data| + 1 - start
    {
      var next := Find(data, marker, start);
      if next.None? {
        NoMoreHits(found, data, marker, start, kernel);
        return;
      }
      var position := next.value;
      NextHit(found, data, marker, start, kernel);
      if position !in seen {
        found := found + [Entry(data, marker, position, kernel)];
        seen := seen + {position};
      }
      start := position + Stride(marker);
    }
  }

  // What the evidence of one category means.

  predicate Distinct(items: seq<Item>) {
    forall i, j | 0 <= i < j < |items| :: items[i].offset != items[j].offset
  }

  predicate Ascending(items: seq<Item>) {
    forall i, j | 0 <= i < j < |items| :: items[i].offset < items[j].offset
  }

  /** Some marker starts here. */
  predicate Occurs(data: string, markers: seq<string>, p: nat) {
    exists i | 0 <= i < |markers| :: At(data, p, markers[i])
  }

  /** The entry of a marker that is really there, labelled with one that starts there. */
  predicate Genuine(item: Item, data: string, markers: seq<string>, kernel: bool) {
    && item.marker in markers && At(data, item.offset, item.marker)
    && item.major == if kernel then MajorAt(data, item.offset) else None
  }

  lemma {:induction false} AddHitsFacts(items: seq<Item>, data: string, marker: string, hits: seq<nat>, kernel: bool)
    requires Inside(hits, data) && Distinct(items)
    ensures var all := AddHits(items, data, marker, hits, kernel);
            && Distinct(all)
            && (forall p :: p in Offsets(all) <==> p in Offsets(items) || p in hits)
            && forall item | item in all ::
                 item in items || (item.offset in hits && item == Entry(data, marker, item.offset, kernel))
    decreases |hits|
  {
    hide MajorAt, Distinct, Offsets;
    if hits != [] {
      var item := Entry(data, marker, hits[0], kernel);
      OneMoreItem(items, item);
      var more := if hits[0] in Offsets(items) then items else items + [item];
      AddHitsFacts(more, data, marker, hits[1..], kernel);
      assert hits == [hits[0]] + hits[1..];
    }
  }

  lemma OneMoreItem(items: seq<Item>, item: Item)
    requires Distinct(items)
    ensures forall p :: p in Offsets(items + [item]) <==> p in Offsets(items) || p == item.offset
    ensures item.offset !in Offsets(items) ==> Distinct(items + [item])
  {
    var more := items + [item];
    assert forall i | 0 <= i < |items| :: more[i] == items[i] && items[i].offset in Offsets(items);
    assert more[|items|] in more;
  }

  /** The search for some marker stopped here. */
  predicate IsHit(data: string, markers: seq<string>, p: nat) {
    exists i | 0 <= i < |markers| :: p in Hits(data, markers[i], 0)
  }

  lemma {:induction false} CollectFacts(data: string, markers: seq<string>, kernel: bool)
    ensures var all := Collect(data, markers, kernel);
            && Distinct(all)
            && (forall item | item in all :: Genuine(item, data, markers, kernel))
            && (forall p :: p in Offsets(all) <==> IsHit(data, markers, p))
    decreases |markers|
  {
    hide MajorAt, Hits, At;
    if markers != [] {
      var front, last := markers[..|markers| - 1], markers[|markers| - 1];
      CollectFacts(data, front, kernel);
      HitsInside(data, last, 0);
      AddHitsFacts(Collect(data, front, kernel), data, last, Hits(data, last, 0), kernel);
      assert markers == front + [last];
    }
  }

  lemma {:induction false} InsertMembers(item: Item, items: seq<Item>)
    ensures forall x :: x in Insert(item, items) <==> x == item || x in items
    decreases |items|
  {
    if items != [] && items[0].offset < item.offset {
      InsertMembers(item, items[1..]);
      assert items == [items[0]] + items[1..];
    }
  }

  lemma {:induction false} InsertAscends(item: Item, items: seq<Item>)
    requires Ascending(items) && forall x | x in items :: x.offset != item.offset
    ensures Ascending(Insert(item, items))
    decreases |items|
  {
    if items != [] && items[0].offset < item.offset {
      var tail := items[1..];
      assert forall k | 0 <= k < |tail| :: tail[k] == items[k + 1];
      InsertAscends(item, tail);
      InsertMembers(item, tail);
      assert Insert(item, tail)[0] in Insert(item, tail);
      assert tail != [] ==> tail[0] == items[1];
      AscendsFrom(items[0], Insert(item, tail));
    } else {
      assert items != [] ==> items[0] in items;
      AscendsFrom(item, items);
    }
  }

  lemma AscendsFrom(item: Item, items: seq<Item>)
    requires Ascending(items) && (items != [] ==> item.offset < items[0].offset)
    ensures Ascending([item] + items)
  {
    var all := [item] + items;
    assert forall k | 0 < k < |all| :: all[k] == items[k - 1] && items[k - 1] in items;
  }

  lemma {:induction false} SortFacts(items: seq<Item>)
    requires Distinct(items)
    ensures Ascending(Sort(items)) && forall x :: x in Sort(items) <==> x in items
    decreases |items|
  {
    if items != [] {
      var tail := items[1..];
      assert forall k | 0 <= k < |tail| :: tail[k] == items[k + 1];
      SortFacts(tail);
      forall x | x in Sort(tail) ensures x.offset != items[0].offset {
        assert x in tail;
      }
      InsertMembers(items[0], Sort(tail));
      InsertAscends(items[0], Sort(tail));
      assert items == [items[0]] + tail;
    }
  }

  /** By strictly ascending offset, every entry genuine, and one at each place where a search stopped. */
  lemma FoundFacts(data: string, markers: seq<string>, kernel: bool)
    ensures var found := Found(data, markers, kernel);
            && Ascending(found)
            && (forall item | item in found :: Genuine(item, data, markers, kernel))
            && (forall p :: p in Offsets(found) <==> IsHit(data, markers, p))
  {
    hide Collect, Sort, IsHit, Genuine;
    var all := Collect(data, markers, kernel);
    CollectFacts(data, markers, kernel);
    SortFacts(all);
    assert Offsets(Sort(all)) == Offsets(all);
  }

  /** A marker that starts here was found, or overlaps one of its own copies found before it. */
  lemma {:induction false} HitsCover(data: string, marker: string, start: nat, p: nat)
    requires start <= p && At(data, p, marker)
    ensures exists h | h in Hits(data, marker, start) :: h <= p < h + Stride(marker)
    decreases |data| + 1 - start
  {
    hide At;
    var first := Find(data, marker, start).value;
    assert first in Hits(data, marker, start);
    if first + Stride(marker) <= p {
      HitsCover(data, marker, first + Stride(marker), p);
      var h :| h in Hits(data, marker, first + Stride(marker)) && h <= p < h + Stride(marker);
      assert h in Hits(data, marker, start);
    }
  }

  /** The first entry is at the true first occurrence of any of the markers. */
  lemma FirstOccurrence(data: string, markers: seq<string>, kernel: bool)
    ensures var found := Found(data, markers, kernel);
            && (found != [] <==> exists p :: Occurs(data, markers, p))
            && (found != [] ==> Occurs(data, markers, found[0].offset)
                                && forall p | Occurs(data, markers, p) :: found[0].offset <= p)
  {
    hide Found, Hits, At;
    var found := Found(data, markers, kernel);
    FoundFacts(data, markers, kernel);
    forall p | Occurs(data, markers, p) ensures found != [] && found[0].offset <= p {
      var i :| 0 <= i < |markers| && At(data, p, markers[i]);
      HitsCover(data, markers[i], 0, p);
      var h :| h in Hits(data, markers[i], 0) && h <= p;
      assert IsHit(data, markers, h);
      assert h in Offsets(found);
    }
    if found != [] {
      assert found[0] in found;
      var i :| 0 <= i < |markers| && markers[i] == found[0].marker;
      assert Occurs(data, markers, found[0].offset);
    }
  }

  // What more output can change.

  lemma AtStays(data: string, more: string, p: nat, marker: string)
    requires data <= more && p + |marker| <= |data|
    ensures At(data, p, marker) <==> At(more, p, marker)
  {
    assert data[p..p + |marker|] == more[p..p + |marker|];
  }

  lemma {:induction false} HitsStay(data: string, more: string, marker: string, start: nat)
    requires data <= more
    ensures forall h | h in Hits(data, marker, start) :: h in Hits(more, marker, start)
    decreases |data| + 1 - start
  {
    hide At;
    var first := Find(data, marker, start);
    if first.Some? {
      var p := first.value;
      HitsInside(data, marker, start);
      assert p in Hits(data, marker, start);
      FindStays(data, more, marker, start);
      HitsStay(data, more, marker, p + Stride(marker));
    }
  }

  lemma FindStays(data: string, more: string, marker: string, start: nat)
    requires data <= more && Find(data, marker, start).Some?
    ensures Find(more, marker, start) == Find(data, marker, start)
  {
    var p := Find(data, marker, start).value;
    AtStays(data, more, p, marker);
    var q := Find(more, marker, start).value;
    if q < p {
      AtStays(data, more, q, marker);
    }
  }

  /** No place is lost when the transcript grows. */
  lemma FoundStays(data: string, more: string, markers: seq<string>, kernel: bool)
    requires data <= more
    ensures Offsets(Found(data, markers, kernel)) <= Offsets(Found(more, markers, kernel))
  {
    hide Found, Hits;
    FoundFacts(data, markers, kernel);
    FoundFacts(more, markers, kernel);
    forall p | IsHit(data, markers, p) ensures IsHit(more, markers, p) {
      var i :| 0 <= i < |markers| && p in Hits(data, markers[i], 0);
      HitsStay(data, more, markers[i], 0);
    }
  }

  /** No marker of the category starts inside another one. */
  ghost predicate Isolated(markers: seq<string>) {
    forall i, j, k | 0 <= i < |markers| && 0 <= j < |markers| && 0 < k :: !At(markers[j], k, markers[i])
  }

  /** The first offset of an isolated category never moves once it is there. */
  lemma FirstStays(data: string, more: string, markers: seq<string>, kernel: bool)
    requires data <= more && Isolated(markers) && Found(data, markers, kernel) != []
    ensures Found(more, markers, kernel) != []
    ensures Found(more, markers, kernel)[0].offset == Found(data, markers, kernel)[0].offset
  {
    hide Found, At;
    FirstOccurrence(data, markers, kernel);
    FirstOccurrence(more, markers, kernel);
    var p := Found(data, markers, kernel)[0].offset;
    var i :| 0 <= i < |markers| && At(data, p, markers[i]);
    AtBound(data, p, markers[i]);
    AtStays(data, more, p, markers[i]);
    assert Occurs(more, markers, p);
    var q := Found(more, markers, kernel)[0].offset;
    var j :| 0 <= j < |markers| && At(more, q, markers[j]);
    AtBound(more, q, markers[j]);
    if q + |markers[j]| <= |data| {
      AtStays(data, more, q, markers[j]);
      assert Occurs(data, markers, q);
    } else if q < p {
      MarkerInside(more, q, markers[j], p, markers[i]);
    }
  }

  lemma AtBound(data: string, p: nat, marker: string)
    requires At(data, p, marker)
    ensures p + |marker| <= |data|
  {
  }

  lemma AtStart(data: string, p: nat, marker: string)
    requires At(data, p, marker) && |marker| >= 2
    ensures data[p] == marker[0] && data[p + 1] == marker[1]
  {
    assert data[p..p + |marker|][0] == marker[0] && data[p..p + |marker|][1] == marker[1];
  }

  lemma XnuIsolated()
    ensures Isolated(XNU)
  {
    hide At;
    forall i, j, k | 0 <= i < 2 && 0 <= j < 2 && 0 < k ensures !At(XNU[j], k, XNU[i]) {
      if At(XNU[j], k, XNU[i]) {
        AtBound(XNU[j], k, XNU[i]);
        AtStart(XNU[j], k, XNU[i]);
        DarwinLetters(k);
      }
    }
  }

  lemma DarwinLetters(k: nat)
    requires 0 < k
    ensures k < |XNU[0]| ==> XNU[0][k] != 'D'
    ensures k < |XNU[1]| ==> XNU[1][k] != 'D'
    ensures XNU[0][0] == XNU[1][0] == 'D'
  {
  }

  lemma UserspaceIsolated()
    ensures Isolated(USERSPACE)
  {
    hide At;
    forall i, j, k | 0 <= i < 4 && 0 <= j < 4 && 0 < k ensures !At(USERSPACE[j], k, USERSPACE[i]) {
      if At(USERSPACE[j], k, USERSPACE[i]) {
        UserspaceInitials(i);
        AtBound(USERSPACE[j], k, USERSPACE[i]);
        AtStart(USERSPACE[j], k, USERSPACE[i]);
        if j == 0 {
          LaunchdLetters(USERSPACE[0], k);
        } else if j == 1 {
          LaunchdLetters(USERSPACE[1], k);
        } else if j == 2 {
          LoginLetters(k);
        } else {
          WindowLetters(k);
        }
      }
    }
  }

  lemma UserspaceInitials(i: nat)
    requires i < 4
    ensures |USERSPACE[i]| >= 2 && USERSPACE[i][0] in {'l', 'W'}
  {
  }

  lemma LaunchdLetters(marker: string, k: nat)
    requires marker in {"launchd:", "launchd "} && 0 < k < |marker|
    ensures marker[k] !in {'l', 'W'}
  {
  }

  lemma LoginLetters(k: nat)
    requires 0 < k < |USERSPACE[2]|
    ensures USERSPACE[2][k] !in {'l', 'W'}
  {
  }

  lemma WindowLetters(k: nat)
    requires 0 < k < |USERSPACE[3]|
    ensures USERSPACE[3][k] !in {'l', 'W'}
  {
  }

  lemma PromptLetters(k: nat)
    requires 0 < k < |PROMPT|
    ensures PROMPT[k] != 'E' && PROMPT[k] != '='
    ensures PROMPT[k] == 'S' ==> k + 1 < |PROMPT| && PROMPT[k + 1] == 't'
  {
    var a, b, c := "Entering iBootStage2", " recovery mode, ", "starting command";
    if k < 20 {
      assert PROMPT[k] == a[k];
      assert k < 19 ==> PROMPT[k + 1] == a[k + 1];
    } else if k < 36 {
      assert PROMPT[k] == b[k - 20];
    } else if k < 52 {
      assert PROMPT[k] == c[k - 36];
    } else {
      assert PROMPT[k] == " prompt"[k - 52];
    }
  }

  lemma FrameLetters(k: nat)
    requires 0 < k < |FRAME|
    ensures FRAME[k] != 'E'
    ensures FRAME[k] == 'S' ==> k + 1 < |FRAME| && FRAME[k + 1] == 't'
  {
    var a, b, c := "======== ", "Start of iBootStage2", " serial output. ========";
    if k < 9 {
      assert FRAME[k] == a[k];
    } else if k < 29 {
      assert FRAME[k] == b[k - 9];
      assert k < 28 ==> FRAME[k + 1] == b[k - 8];
    } else {
      assert FRAME[k] == c[k - 29];
    }
  }

  lemma Stage2Isolated()
    ensures Isolated(STAGE2)
  {
    hide At;
    forall i, j, k | 0 <= i < 3 && 0 <= j < 3 && 0 < k ensures !At(STAGE2[j], k, STAGE2[i]) {
      if At(STAGE2[j], k, STAGE2[i]) {
        AtBound(STAGE2[j], k, STAGE2[i]);
        Stage2Initials(i);
        AtStart(STAGE2[j], k, STAGE2[i]);
        if j == 0 {
          PromptLetters(k);
        } else if j == 1 {
          SupervisorLetters(k);
        } else {
          FrameLetters(k);
        }
      }
    }
  }

  lemma Stage2Initials(i: nat)
    requires i < 3
    ensures |STAGE2[i]| >= 2
    ensures STAGE2[i][0] == 'E' || STAGE2[i][0] == '=' || (STAGE2[i][0] == 'S' && STAGE2[i][1] == 'u')
    ensures STAGE2[i][0] == '=' <==> i == 2
  {
  }

  lemma SupervisorLetters(k: nat)
    requires 0 < k < |STAGE2[1]|
    ensures STAGE2[1][k] != 'E' && STAGE2[1][k] != '='
    ensures STAGE2[1][k] == 'S' ==> k + 1 < |STAGE2[1]| && STAGE2[1][k + 1] == 't'
  {
  }

  lemma MarkerInside(data: string, q: nat, outer: string, p: nat, inner: string)
    requires At(data, q, outer) && At(data, p, inner) && q <= p && p + |inner| <= q + |outer|
    ensures At(outer, p - q, inner)
  {
    SliceOfSlice(data, q, q + |outer|, p - q, p - q + |inner|);
  }

  // The stages.

  datatype Blocker =
    | Nothing
    | NoIBoot
    | NoXnu
    | NoUserspace
    | WrongOrder
    | NoMajor
    | OtherMajor(observed: set<nat>, expected: nat)

  datatype Evidence = Evidence(
    stage1: seq<Item>, stage2: seq<Item>, xnu: seq<Item>, userspace: seq<Item>,
    ibootExecuted: bool, stage2ToXnu: bool, xnuToUserspace: bool,
    majors: set<nat>, targetMatch: bool, verified: bool, blocker: Blocker)

  /** min(offsets, default=None) */
  function Least(items: seq<Item>): Option<nat> {
    if items == [] then None
    else
      var rest := Least(items[1..]);
      if rest.Some? && rest.value < items[0].offset then rest else Some(items[0].offset)
  }

  /** Both offsets are there and the first is not the later one. */
  predicate InOrder(a: Option<nat>, b: Option<nat>) { a.Some? && b.Some? && a.value <= b.value }

  function Majors(xnu: seq<Item>): set<nat> { set item | item in xnu && item.major.Some? :: item.major.value }

  function ParseUart(data: string, expected: Option<nat>): Result<Evidence> {
    if expected.Some? && !(1 <= expected.value <= MAX_MAJOR) then
      Err("ValueError: expected kernel major must be between 1 and 99")
    else
      var stage1, stage2 := Found(data, STAGE1, false), Found(data, STAGE2, false);
      var xnu, userspace := Found(data, XNU, true), Found(data, USERSPACE, false);
      var majors := Majors(xnu);
      var matching := expected.None? || expected.value in majors;
      var iboot := stage1 != [] || stage2 != [];
      var handoff := InOrder(Least(stage2), Least(xnu));
      var order := InOrder(Least(xnu), Least(userspace));
      var verified := xnu != [] && userspace != [] && matching && order;
      var blocker :=
        if verified then Nothing
        else if !iboot then NoIBoot
        else if xnu == [] then NoXnu
        else if userspace == [] then NoUserspace
        else if !order then WrongOrder
        else if expected.Some? && majors == {} then NoMajor
        else OtherMajor(majors, expected.value);
      Ok(Evidence(stage1, stage2, xnu, userspace, iboot, handoff, order, majors, matching, verified, blocker))
  }

  lemma {:induction false} LeastIsFirst(items: seq<Item>)
    requires Ascending(items)
    ensures Least(items) == if items == [] then None else Some(items[0].offset)
  {
    if items != [] {
      assert forall k | 0 <= k < |items| - 1 :: items[1..][k] == items[k + 1];
      LeastIsFirst(items[1..]);
    }
  }

  lemma LeastFound(data: string, markers: seq<string>, kernel: bool)
    ensures var found := Found(data, markers, kernel);
            Least(found) == if found == [] then None else Some(found[0].offset)
  {
    FoundFacts(data, markers, kernel);
    LeastIsFirst(Found(data, markers, kernel));
  }

  /** One place at which a marker of the first kind starts, and none of the second kind before it. */
  ghost predicate Leads(data: string, first: seq<string>, second: seq<string>) {
    exists p :: Occurs(data, first, p) && forall q | Occurs(data, second, q) :: p <= q
  }

  /**
   * What a verified boot says about the transcript itself: a Darwin banner that no userspace marker
   * precedes, a userspace marker, and the requested major behind one of the banners.
   */
  lemma VerifiedMeans(data: string, expected: Option<nat>)
    requires expected.Some? ==> 1 <= expected.value <= MAX_MAJOR
    ensures var e := ParseUart(data, expected).value;
            && (e.verified <==>
                  && Leads(data, XNU, USERSPACE) && (exists q :: Occurs(data, USERSPACE, q))
                  && (expected.Some? ==> HasMajor(data, expected.value)))
            && (e.verified <==> e.blocker == Nothing)
  {
    hide Found, Occurs;
    FirstOccurrence(data, XNU, true);
    FirstOccurrence(data, USERSPACE, false);
    LeastFound(data, XNU, true);
    LeastFound(data, USERSPACE, false);
    var e := ParseUart(data, expected).value;
    if expected.Some? {
      HasMajorIsMember(data, expected.value);
    }
    if Leads(data, XNU, USERSPACE) && exists q :: Occurs(data, USERSPACE, q) {
      var p :| Occurs(data, XNU, p) && forall q | Occurs(data, USERSPACE, q) :: p <= q;
      assert e.xnuToUserspace;
    }
  }

  /** What the two handoffs and the execution of iBoot say about the transcript itself. */
  lemma HandoffsMean(data: string, expected: Option<nat>)
    requires expected.Some? ==> 1 <= expected.value <= MAX_MAJOR
    ensures var e := ParseUart(data, expected).value;
            && (e.ibootExecuted <==> exists p :: Occurs(data, STAGE1, p) || Occurs(data, STAGE2, p))
            && (e.stage2ToXnu <==> Leads(data, STAGE2, XNU) && exists q :: Occurs(data, XNU, q))
            && (e.xnuToUserspace <==> Leads(data, XNU, USERSPACE) && exists q :: Occurs(data, USERSPACE, q))
  {
    hide Found, Occurs, Leads;
    FirstOccurrence(data, STAGE1, false);
    FirstOccurrence(data, STAGE2, false);
    InOrderMeans(data, STAGE2, false, XNU, true);
    InOrderMeans(data, XNU, true, USERSPACE, false);
  }

  lemma InOrderMeans(data: string, first: seq<string>, k: bool, second: seq<string>, l: bool)
    ensures InOrder(Least(Found(data, first, k)), Least(Found(data, second, l)))
            <==> Leads(data, first, second) && exists q :: Occurs(data, second, q)
  {
    hide Found, Occurs;
    FirstOccurrence(data, first, k);
    FirstOccurrence(data, second, l);
    LeastFound(data, first, k);
    LeastFound(data, second, l);
    if Leads(data, first, second) && exists q :: Occurs(data, second, q) {
      var p :| Occurs(data, first, p) && forall q | Occurs(data, second, q) :: p <= q;
      assert Occurs(data, second, Found(data, second, l)[0].offset);
    }
  }

  /** A banner with this kernel major is among the evidence. */
  ghost predicate HasMajor(data: string, major: nat) {
    exists item | item in Found(data, XNU, true) :: item.major == Some(major)
  }

  lemma HasMajorIsMember(data: string, major: nat)
    ensures HasMajor(data, major) <==> major in Majors(Found(data, XNU, true))
  {
    hide Found;
  }

  /** The majors are those behind the banners, and a requested one has to be among them. */
  lemma TargetMeans(data: string, expected: Option<nat>)
    requires expected.Some? ==> 1 <= expected.value <= MAX_MAJOR
    ensures var e := ParseUart(data, expected).value;
            && (forall m :: m in e.majors <==> HasMajor(data, m))
            && (e.targetMatch <==> expected.None? || HasMajor(data, expected.value))
  {
    hide Found;
    forall m ensures m in ParseUart(data, expected).value.majors <==> HasMajor(data, m) {
      HasMajorIsMember(data, m);
    }
  }

  ghost predicate Anywhere(data: string, markers: seq<string>) { exists p :: Occurs(data, markers, p) }

  /** What each blocker says about the transcript; no two of them say what can be true at once. */
  lemma BlockerMeans(data: string, expected: Option<nat>)
    requires expected.Some? ==> 1 <= expected.value <= MAX_MAJOR
    ensures var e := ParseUart(data, expected).value;
            var iboot := Anywhere(data, STAGE1) || Anywhere(data, STAGE2);
            match e.blocker
            case Nothing => e.verified
            case NoIBoot => !e.verified && !iboot
            case NoXnu => iboot && !Anywhere(data, XNU)
            case NoUserspace => iboot && Anywhere(data, XNU) && !Anywhere(data, USERSPACE)
            case WrongOrder =>
              && iboot && Anywhere(data, XNU)
              && exists q :: Occurs(data, USERSPACE, q) && forall p | Occurs(data, XNU, p) :: q < p
            case NoMajor =>
              && iboot && Leads(data, XNU, USERSPACE) && Anywhere(data, USERSPACE) && expected.Some?
              && forall m :: !HasMajor(data, m)
            case OtherMajor(observed, major) =>
              && iboot && Leads(data, XNU, USERSPACE) && Anywhere(data, USERSPACE) && expected == Some(major)
              && !HasMajor(data, major) && observed != {} && forall m :: m in observed <==> HasMajor(data, m)
  {
    hide Found, Occurs, Majors, HasMajor;
    FirstOccurrence(data, STAGE1, false);
    FirstOccurrence(data, STAGE2, false);
    FirstOccurrence(data, XNU, true);
    FirstOccurrence(data, USERSPACE, false);
    LeastFound(data, XNU, true);
    LeastFound(data, USERSPACE, false);
    TargetMeans(data, expected);
  }

  /** What has been seen of the boot stays seen, however the transcript goes on. */
  lemma Sticky(data: string, more: string, expected: Option<nat>)
    requires data <= more && (expected.Some? ==> 1 <= expected.value <= MAX_MAJOR)
    ensures var before, after := ParseUart(data, expected).value, ParseUart(more, expected).value;
            && (before.ibootExecuted ==> after.ibootExecuted)
            && (before.xnu != [] ==> after.xnu != [] && after.xnu[0].offset == before.xnu[0].offset)
            && (before.userspace != [] ==>
                  after.userspace != [] && after.userspace[0].offset == before.userspace[0].offset)
            && (before.stage2 != [] ==> after.stage2 != [] && after.stage2[0].offset == before.stage2[0].offset)
            && (before.stage2ToXnu ==> after.stage2ToXnu)
            && (before.xnuToUserspace ==> after.xnuToUserspace)
            && (expected.None? && before.verified ==> after.verified)
  {
    hide Found, Isolated;
    XnuIsolated();
    UserspaceIsolated();
    Stage2Isolated();
    StageStays(data, more, STAGE1, false);
    StageStays(data, more, STAGE2, false);
    StageStays(data, more, XNU, true);
    StageStays(data, more, USERSPACE, false);
  }

  lemma StageStays(data: string, more: string, markers: seq<string>, kernel: bool)
    requires data <= more
    ensures var before, after := Found(data, markers, kernel), Found(more, markers, kernel);
            && (before != [] ==> after != [])
            && Least(before) == (if before == [] then None else Some(before[0].offset))
            && Least(after) == (if after == [] then None else Some(after[0].offset))
            && (before != [] && Isolated(markers) ==> after[0].offset == before[0].offset)
  {
    hide Found, Isolated;
    FoundStays(data, more, markers, kernel);
    LeastFound(data, markers, kernel);
    LeastFound(more, markers, kernel);
    var before := Found(data, markers, kernel);
    if before != [] {
      assert before[0].offset in Offsets(before);
      if Isolated(markers) {
        FirstStays(data, more, markers, kernel);
      }
    }
  }

  // When a kernel major can still change.

  lemma {:induction false} SearchFinds(w: string, i: nat)
    requires i <= |w|
    ensures Search(w, i).None? ==> forall k | i <= k <= |w| :: VersionAt(w, k).None?
    ensures Search(w, i).Some? ==>
              exists j | i <= j <= |w| ::
                VersionAt(w, j) == Search(w, i) && forall k | i <= k < j :: VersionAt(w, k).None?
    decreases |w| - i
  {
    hide VersionAt;
    if VersionAt(w, i).None? && i < |w| {
      SearchFinds(w, i + 1);
    }
  }

  lemma {:induction false} SearchFrom(w: string, i: nat, j: nat)
    requires i <= j <= |w| && VersionAt(w, j).Some? && forall k | i <= k < j :: VersionAt(w, k).None?
    ensures Search(w, i) == VersionAt(w, j)
    decreases j - i
  {
    hide VersionAt;
    if i < j {
      SearchFrom(w, i + 1, j);
    }
  }

  lemma {:induction false} SkipsGrow(w: string, ext: string, i: nat)
    requires i <= |w|
    ensures SkipSpaces(w, i) < |w| ==> SkipSpaces(w + ext, i) == SkipSpaces(w, i)
    ensures SkipSpaces(w, i) == |w| ==> SkipSpaces(w + ext, i) >= |w|
    ensures SkipDigits(w, i) < |w| ==> SkipDigits(w + ext, i) == SkipDigits(w, i)
    ensures SkipDigits(w, i) == |w| ==> SkipDigits(w + ext, i) == SkipDigits(w + ext, |w|)
    decreases |w| - i
  {
    if i < |w| {
      assert (w + ext)[i] == w[i];
      SkipsGrow(w, ext, i + 1);
    }
  }

  /** A match that ends inside the window stays; one that ends with it goes on over further digits. */
  lemma VersionGrows(w: string, ext: string, i: nat)
    requires VersionAt(w, i).Some?
    ensures var (start, end) := VersionAt(w, i).value;
            VersionAt(w + ext, i) == Some((start, if end < |w| then end else SkipDigits(w + ext, |w|)))
  {
    hide SkipSpaces, SkipDigits;
    AtStays(w, w + ext, i, BANNER);
    SkipsGrow(w, ext, i + |BANNER|);
    SkipsGrow(w, ext, SkipSpaces(w, i + |BANNER|));
    NoSpaceIsDigit(w, i + |BANNER|);
  }

  lemma NoSpaceIsDigit(w: string, i: nat)
    requires i <= |w|
    ensures SkipDigits(w, SkipSpaces(w, i)) > SkipSpaces(w, i) ==> SkipSpaces(w, i) < |w|
  {
  }

  /** A match that more output completes has its digits behind the old end, after nothing but spaces. */
  lemma LateMatch(w: string, ext: string, i: nat)
    requires i <= |w| && VersionAt(w, i).None? && VersionAt(w + ext, i).Some?
    ensures VersionAt(w + ext, i).value.0 >= |w|
    ensures forall k | i < k <= |w| :: !At(w, k, BANNER)
  {
    hide SkipDigits;
    var v := w + ext;
    var start, end := SkipSpaces(v, i + |BANNER|), SkipDigits(v, SkipSpaces(v, i + |BANNER|));
    if start < |w| {
      AtStays(w, v, i, BANNER);
      SkipsBack(w, ext, i + |BANNER|);
    }
    SpacesFrom(v, i + |BANNER|);
    forall k | i < k <= |w| ensures !At(w, k, BANNER) {
      if At(w, k, BANNER) {
        AtStart(w, k, BANNER);
        assert v[k] == w[k];
        if k < i + |BANNER| {
          BannerLetter(v, i, k);
        }
      }
    }
  }

  lemma BannerLetter(v: string, i: nat, k: nat)
    requires At(v, i, BANNER) && i < k < i + |BANNER|
    ensures v[k] != 'D'
  {
    assert v[i..i + |BANNER|][k - i] == BANNER[k - i];
  }

  lemma {:induction false} SkipsBack(w: string, ext: string, i: nat)
    requires i <= |w| && SkipSpaces(w + ext, i) < |w|
    requires SkipDigits(w + ext, SkipSpaces(w + ext, i)) > SkipSpaces(w + ext, i)
    ensures SkipSpaces(w, i) == SkipSpaces(w + ext, i) && SkipDigits(w, SkipSpaces(w, i)) > SkipSpaces(w, i)
    decreases |w| - i
  {
    assert i < |w| && (w + ext)[i] == w[i];
    if IsSpace(w[i]) {
      SkipsBack(w, ext, i + 1);
    }
  }

  /** The first match of the window is still the first match of a longer one. */
  lemma SearchGrows(w: string, ext: string)
    requires Search(w, 0).Some?
    ensures var (start, end) := Search(w, 0).value;
            Search(w + ext, 0) == Some((start, if end < |w| then end else SkipDigits(w + ext, |w|)))
  {
    hide Search, SkipDigits;
    SearchFinds(w, 0);
    var j :| 0 <= j <= |w| && VersionAt(w, j) == Search(w, 0) && forall k | 0 <= k < j :: VersionAt(w, k).None?;
    assert At(w, j, BANNER);
    forall k | 0 <= k < j ensures VersionAt(w + ext, k).None? {
      if VersionAt(w + ext, k).Some? {
        LateMatch(w, ext, k);
      }
    }
    VersionGrows(w, ext, j);
    SearchFrom(w + ext, 0, j);
  }

  /** Where one more digit completes a match, the window ended with a space. */
  lemma CompletedByDigit(w: string, c: char)
    requires w != [] && IsDigit(c) && Search(w, 0).None? && Search(w + [c], 0).Some?
    ensures IsSpace(w[|w| - 1])
  {
    hide Search, VersionAt, SkipDigits;
    SearchFinds(w, 0);
    SearchFinds(w + [c], 0);
    SearchFacts(w + [c], 0);
    var (start, end) := Search(w + [c], 0).value;
    var j :| 0 <= j <= |w| + 1 && VersionAt(w + [c], j) == Search(w + [c], 0);
    VersionInside(w + [c], j);
    LateMatch(w, [c], j);
    assert start == |w| && (w + [c])[start - 1] == w[|w| - 1];
  }

  lemma VersionInside(w: string, i: nat)
    requires VersionAt(w, i).Some?
    ensures i + |BANNER| < |w|
  {
  }

  /** No further output can reach the version behind this marker. */
  predicate Closed(data: string, p: nat)
    requires p <= |data|
  {
    || p + WINDOW <= |data|
    || (Search(Window(data, p), 0).Some? && Search(Window(data, p), 0).value.1 < |Window(data, p)|)
  }

  lemma WindowGrows(data: string, more: string, p: nat)
    requires data <= more && p <= |data|
    ensures p + WINDOW <= |data| ==> Window(more, p) == Window(data, p)
    ensures p + WINDOW > |data| ==> Window(more, p) == Window(data, p) + more[|data|..Min(p + WINDOW, |more|)]
  {
  }

  lemma ClosedStays(data: string, more: string, p: nat)
    requires data <= more && p <= |data| && Closed(data, p)
    ensures MajorAt(more, p) == MajorAt(data, p)
  {
    hide MajorOf, Window, Search;
    WindowGrows(data, more, p);
    if p + WINDOW > |data| {
      KeptMajor(Window(data, p), more[|data|..Min(p + WINDOW, |more|)]);
    }
  }

  lemma KeptMajor(w: string, ext: string)
    requires Search(w, 0).Some? && Search(w, 0).value.1 < |w|
    ensures MajorOf(w + ext) == MajorOf(w)
  {
    hide Search;
    SearchGrows(w, ext);
    SearchFacts(w, 0);
    var (start, end) := Search(w, 0).value;
    assert (w + ext)[start..end] == w[start..end];
  }

  /** The digits with which the window ends, when the first match ends with it. */
  function OpenDigits(w: string): Option<string> {
    if Search(w, 0).Some? && Search(w, 0).value.1 == |w| then
      SearchFacts(w, 0);
      Some(w[Search(w, 0).value.0..])
    else None
  }

  lemma ExtendedMajor(w: string)
    requires OpenDigits(w).Some?
    ensures var digits := OpenDigits(w).value;
            && (forall i | 0 <= i < |digits| :: IsDigit(digits[i]))
            && MajorOf(w) == (if 1 <= Value(digits) <= MAX_MAJOR then Some(Value(digits)) else None)
            && MajorOf(w + ['9']) == if 10 * Value(digits) + 9 <= MAX_MAJOR then Some(10 * Value(digits) + 9) else None
  {
    hide Search, SkipDigits, Value;
    SearchFacts(w, 0);
    SearchGrows(w, ['9']);
    OneMoreDigit(w);
    var (start, end) := Search(w, 0).value;
    assert w[start..end] == w[start..];
    assert (w + ['9'])[start..|w| + 1] == w[start..] + ['9'];
    ValueOfNine(w[start..]);
  }

  /** The open matches of one transcript are one and the same run of digits, at its end. */
  lemma OneOpenRun(data: string, p: nat, q: nat)
    requires p <= |data| && q <= |data| && OpenDigits(data[p..]).Some? && OpenDigits(data[q..]).Some?
    ensures OpenDigits(data[p..]) == OpenDigits(data[q..])
  {
    hide Search;
    SearchFacts(data[p..], 0);
    SearchFacts(data[q..], 0);
    var s, t := Search(data[p..], 0).value.0, Search(data[q..], 0).value.0;
    assert data[p..][s..] == data[p + s..] && data[q..][t..] == data[q + t..];
    RunStart(data, p, s, q + t);
    RunStart(data, q, t, p + s);
  }

  lemma RunStart(data: string, p: nat, s: nat, t: nat)
    requires p <= |data| && s <= |data| - p && 0 < t <= |data| && IsSpace(data[t - 1])
    requires forall k | s <= k < |data[p..]| :: IsDigit(data[p..][k])
    ensures t <= p + s
  {
    forall k | p + s <= k < |data| ensures IsDigit(data[k]) {
      assert data[p..][k - p] == data[k];
    }
    assert !IsDigit(data[t - 1]);
  }

  /** A marker with an open match loses its major to one more digit. */
  lemma OpenBreaks(data: string, p: nat, q: nat, major: nat)
    requires p < |data| && q < |data| && MajorAt(data, p) == Some(major) && !Closed(data, p)
    requires MajorAt(data, q) == Some(major) ==> !Closed(data, q)
    ensures MajorAt(data + ['9'], q) != Some(major)
  {
    hide MajorOf, Search, Value;
    var more := data + ['9'];
    var v, w := Window(data, p), Window(data, q);
    WindowGrows(data, more, q);
    MajorNeedsMatch(v);
    ExtendedMajor(v);
    if q + WINDOW > |data| {
      assert more[|data|..Min(q + WINDOW, |more|)] == ['9'];
      assert v == data[p..] && w == data[q..];
      assert v[|v| - 1] == data[|data| - 1] == w[|w| - 1];
      if OpenDigits(w).Some? {
        OneOpenRun(data, p, q);
        ExtendedMajor(w);
      } else if Search(w, 0).Some? {
        SearchFacts(w, 0);
        KeptMajor(w, ['9']);
      } else if MajorOf(w + ['9']).Some? {
        MajorNeedsMatch(w + ['9']);
        CompletedByDigit(w, '9');
        LastDigit(v);
      }
    }
  }

  lemma MajorNeedsMatch(w: string)
    requires MajorOf(w).Some?
    ensures Search(w, 0).Some?
    ensures Search(w, 0).value.1 <= |w|
  {
    SearchFacts(w, 0);
  }

  lemma LastDigit(w: string)
    requires OpenDigits(w).Some?
    ensures w != [] && IsDigit(w[|w| - 1])
  {
    SearchFacts(w, 0);
  }

  lemma OneMoreDigit(w: string)
    ensures SkipDigits(w + ['9'], |w|) == |w| + 1
  {
  }

  lemma ValueOfNine(digits: string)
    requires forall i | 0 <= i < |digits| :: IsDigit(digits[i])
    ensures Value(digits + ['9']) == 10 * Value(digits) + 9
  {
    assert (digits + ['9'])[..|digits|] == digits;
  }

  /** A digit more completes no marker that ends in something else. */
  lemma {:induction false} SameHits(data: string, marker: string, start: nat)
    requires marker != [] && !IsDigit(marker[|marker| - 1])
    ensures Hits(data + ['9'], marker, start) == Hits(data, marker, start)
    decreases |data| + 1 - start
  {
    hide At;
    SameFind(data, marker, start);
    var first := Find(data, marker, start);
    if first.Some? {
      SameHits(data, marker, first.value + Stride(marker));
    }
  }

  lemma {:induction false} SameFind(data: string, marker: string, start: nat)
    requires marker != [] && !IsDigit(marker[|marker| - 1])
    ensures Find(data + ['9'], marker, start) == Find(data, marker, start)
    decreases |data| + 1 - start
  {
    var more := data + ['9'];
    if start + |marker| <= |data| {
      AtStays(data, more, start, marker);
      SameFind(data, marker, start + 1);
    } else if start + |marker| == |more| {
      assert more[start..start + |marker|][|marker| - 1] == more[|data|];
    }
  }

  lemma SameOffsets(data: string)
    ensures Offsets(Found(data + ['9'], XNU, true)) == Offsets(Found(data, XNU, true))
  {
    hide Found, Hits;
    FoundFacts(data, XNU, true);
    FoundFacts(data + ['9'], XNU, true);
    SameHits(data, XNU[0], 0);
    SameHits(data, XNU[1], 0);
    forall p ensures IsHit(data + ['9'], XNU, p) <==> IsHit(data, XNU, p) {
      assert IsHit(data, XNU, p) <==> p in Hits(data, XNU[0], 0) || p in Hits(data, XNU[1], 0);
    }
  }

  /** The requested major, behind a banner that no further output can reach. */
  ghost predicate HasClosedMajor(data: string, major: nat) {
    exists item | item in Found(data, XNU, true) ::
      item.major == Some(major) && item.offset <= |data| && Closed(data, item.offset)
  }

  lemma FoundAt(data: string, p: nat)
    requires p in Offsets(Found(data, XNU, true))
    ensures p < |data|
    ensures exists item | item in Found(data, XNU, true) :: item.offset == p && item.major == MajorAt(data, p)
  {
    hide Found, MajorAt;
    FoundFacts(data, XNU, true);
    var item :| item in Found(data, XNU, true) && item.offset == p;
    assert Genuine(item, data, XNU, true);
  }

  lemma MajorPlace(data: string, major: nat) returns (p: nat)
    requires HasMajor(data, major)
    ensures p < |data| && p in Offsets(Found(data, XNU, true)) && MajorAt(data, p) == Some(major)
    ensures HasClosedMajor(data, major) ==> Closed(data, p)
  {
    hide Found, MajorAt, Closed;
    FoundFacts(data, XNU, true);
    var found := Found(data, XNU, true);
    var item :| item in found && item.major == Some(major)
                && (HasClosedMajor(data, major) ==> item.offset <= |data| && Closed(data, item.offset));
    assert Genuine(item, data, XNU, true);
    p := item.offset;
  }

  lemma ClosedMajorStays(data: string, more: string, major: nat)
    requires data <= more && HasClosedMajor(data, major)
    ensures HasMajor(more, major)
  {
    hide Found, MajorAt, Closed;
    var p := MajorPlace(data, major);
    FoundStays(data, more, XNU, true);
    ClosedStays(data, more, p);
    FoundAt(more, p);
  }

  lemma OpenMajorBreaks(data: string, major: nat)
    requires HasMajor(data, major) && !HasClosedMajor(data, major)
    ensures !HasMajor(data + ['9'], major)
  {
    hide Found, MajorAt, Closed;
    if HasMajor(data + ['9'], major) {
      var p := MajorPlace(data, major);
      var q := MajorPlace(data + ['9'], major);
      SameOffsets(data);
      FoundAt(data, p);
      FoundAt(data, q);
      OpenBreaks(data, p, q, major);
    }
  }

  /**
   * With a requested major the verdict can be taken back by more output. It is final exactly when
   * the major stands behind a banner whose digits have ended: by another character, or by the end
   * of the bytes that are searched.
   */
  lemma VerdictIsFinal(data: string, major: nat)
    requires 1 <= major <= MAX_MAJOR && ParseUart(data, Some(major)).value.verified
    ensures (forall more | data <= more :: ParseUart(more, Some(major)).value.verified) <==> HasClosedMajor(data, major)
  {
    hide Found, MajorAt, Closed, HasMajor, HasClosedMajor;
    HasMajorIsMember(data, major);
    forall more | data <= more
      ensures ParseUart(more, Some(major)).value.verified <==> HasMajor(more, major)
    {
      HasMajorIsMember(more, major);
      Sticky(data, more, Some(major));
    }
    if HasClosedMajor(data, major) {
      forall more | data <= more ensures HasMajor(more, major) {
        ClosedMajorStays(data, more, major);
      }
    } else {
      OpenMajorBreaks(data, major);
      assert data <= data + ['9'];
    }
  }

  /** A transcript that names two versions, the second one still being written. */
  const UNFINISHED: string := ("Darwin Kernel Version 25\n" + "launchd: ") + "Darwin Kernel Version 26"

  /** The boot of major 26 that it verifies is taken back by one more digit. */
  lemma VerdictTakenBack()
    ensures ParseUart(UNFINISHED, Some(26)).value.verified
    ensures !ParseUart(UNFINISHED + "9", Some(26)).value.verified
  {
    hide Found, At, Closed, ParseUart, MajorAt, Occurs;
    UnfinishedMarkers();
    UnfinishedMajors();
    assert Occurs(UNFINISHED, XNU, 0) by { OccursHere(UNFINISHED, XNU, 0, 0); }
    assert Occurs(UNFINISHED, USERSPACE, 25) by { OccursHere(UNFINISHED, USERSPACE, 0, 25); }
    SecondBannerFound();
    FoundAt(UNFINISHED, 34);
    VerifiedMeans(UNFINISHED, Some(26));
    NotClosed();
    OpenMajorBreaks(UNFINISHED, 26);
    assert "9" == ['9'];
    VerifiedMeans(UNFINISHED + "9", Some(26));
  }

  lemma OccursHere(data: string, markers: seq<string>, i: nat, p: nat)
    requires i < |markers| && At(data, p, markers[i])
    ensures Occurs(data, markers, p)
  {
  }

  lemma UnfinishedMarkers()
    ensures |UNFINISHED| == 58
    ensures At(UNFINISHED, 0, XNU[0]) && At(UNFINISHED, 34, XNU[0]) && At(UNFINISHED, 25, USERSPACE[0])
  {
    var a, b, c := "Darwin Kernel Version 25\n", "launchd: ", "Darwin Kernel Version 26";
    SplitThree(a, b, c);
    SliceOfSlice(UNFINISHED, 0, 25, 0, 21);
    SliceOfSlice(UNFINISHED, 25, 34, 0, 8);
    SliceOfSlice(UNFINISHED, 34, 58, 0, 21);
    assert a[..21] == "Darwin Kernel Version" && c[..21] == "Darwin Kernel Version" && b[..8] == "launchd:";
  }

  /** Only the two banners begin with a capital D. */
  lemma UnfinishedLetters(k: nat)
    requires k < 58
    ensures |UNFINISHED| == 58 && (UNFINISHED[k] == 'D' ==> k == 0 || k == 34)
  {
    var a, b, c := "Darwin Kernel Version 25\n", "launchd: ", "Darwin Kernel Version 26";
    if k < 25 {
      assert UNFINISHED[k] == a[k];
    } else if k < 34 {
      assert UNFINISHED[k] == b[k - 25];
    } else {
      assert UNFINISHED[k] == c[k - 34];
    }
  }

  /** A banner with a two-digit version that nothing, or no digit, follows. */
  lemma TwoDigits(w: string)
    requires |w| >= 24 && At(w, 0, BANNER) && w[21] == ' ' && IsDigit(w[22]) && IsDigit(w[23])
    requires |w| == 24 || !IsDigit(w[24])
    ensures Search(w, 0) == Some((22, 24))
    ensures var value := 10 * (w[22] as int - '0' as int) + (w[23] as int - '0' as int);
            MajorOf(w) == if 1 <= value <= MAX_MAJOR then Some(value) else None
  {
    hide At;
    assert SkipSpaces(w, 22) == 22 && SkipSpaces(w, 21) == 22;
    assert SkipDigits(w, 24) == 24 && SkipDigits(w, 23) == 24 && SkipDigits(w, 22) == 24;
    assert VersionAt(w, 0) == Some((22, 24));
    SearchFacts(w, 0);
    var digits := w[22..24];
    assert digits[..1] == [w[22]] && digits[..1][..0] == [];
    assert Value(digits[..1]) == w[22] as int - '0' as int;
  }

  lemma UnfinishedMajors()
    ensures |UNFINISHED| == 58
    ensures MajorAt(UNFINISHED, 0) == Some(25) && MajorAt(UNFINISHED, 34) == Some(26) && !Closed(UNFINISHED, 34)
  {
    hide MajorOf, Search;
    UnfinishedMarkers();
    var a, c := "Darwin Kernel Version 25\n", "Darwin Kernel Version 26";
    var tail := Window(UNFINISHED, 34);
    assert tail == UNFINISHED[34..] == c && Window(UNFINISHED, 0) == UNFINISHED;
    assert c[..21] == BANNER;
    TwoDigits(c);
    assert forall k | 0 <= k < 25 :: UNFINISHED[k] == a[k];
    TwoDigits(UNFINISHED);
  }

  lemma SecondBannerFound()
    ensures 34 in Offsets(Found(UNFINISHED, XNU, true))
  {
    hide Found, At, Hits, Offsets;
    UnfinishedMarkers();
    HitsCover(UNFINISHED, XNU[0], 0, 34);
    var h :| h in Hits(UNFINISHED, XNU[0], 0) && h <= 34 < h + Stride(XNU[0]);
    HitsInside(UNFINISHED, XNU[0], 0);
    StartsWithD(UNFINISHED, h, 0);
    FoundFacts(UNFINISHED, XNU, true);
    assert IsHit(UNFINISHED, XNU, 34);
  }

  lemma StartsWithD(data: string, p: nat, i: nat)
    requires i < 2 && At(data, p, XNU[i]) && |data| == 58 && data == UNFINISHED
    ensures p == 0 || p == 34
  {
    hide At;
    AtBound(data, p, XNU[i]);
    AtStart(data, p, XNU[i]);
    DarwinLetters(1);
    UnfinishedLetters(p);
  }

  lemma NotClosed()
    ensures !HasClosedMajor(UNFINISHED, 26)
  {
    hide Found, At, Closed, MajorAt;
    UnfinishedMarkers();
    UnfinishedMajors();
    FoundFacts(UNFINISHED, XNU, true);
    forall item | item in Found(UNFINISHED, XNU, true) && item.major == Some(26) && item.offset <= |UNFINISHED|
      ensures !Closed(UNFINISHED, item.offset)
    {
      assert Genuine(item, UNFINISHED, XNU, true);
      var i :| 0 <= i < 2 && XNU[i] == item.marker;
      StartsWithD(UNFINISHED, item.offset, i);
    }
  }
}
