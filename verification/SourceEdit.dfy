/** Applying a list of collected edits to a source text: stable sort, overlap check and right-to-left splice. */
module SourceEdit {
  import opened Basics

  /** Replace the bytes `[start, end)` of the source. */
  datatype Edit = Edit(start: nat, end: nat, replacement: Bytes)

  datatype SourceEditError = UnsupportedSyntax

  predicate InRange(source: Bytes, edit: Edit) {
    edit.start <= edit.end <= |source|
  }

  predicate AllInRange(source: Bytes, edits: seq<Edit>) {
    forall i | 0 <= i < |edits| :: InRange(source, edits[i])
  }

  // ---------------------------------------------------------------- stable sort

  /** The edits that start at a position, in the order they were collected. */
  function StartingAt(edits: seq<Edit>, position: nat): seq<Edit> {
    if edits == [] then []
    else (if edits[0].start == position then [edits[0]] else []) + StartingAt(edits[1..], position)
  }

  predicate Sorted(edits: seq<Edit>) {
    forall i, j | 0 <= i < j < |edits| :: edits[i].start <= edits[j].start
  }

  function Insert(edit: Edit, sorted: seq<Edit>): seq<Edit> {
    if sorted == [] || edit.start <= sorted[0].start then [edit] + sorted else [sorted[0]] + Insert(edit, sorted[1..])
  }

  function SortByStart(edits: seq<Edit>): seq<Edit> {
    if edits == [] then [] else Insert(edits[0], SortByStart(edits[1..]))
  }

  lemma {:induction false} InsertMembers(edit: Edit, sorted: seq<Edit>)
    ensures multiset(Insert(edit, sorted)) == multiset(sorted) + multiset{edit}
  {
    if sorted != [] {
      InsertMembers(edit, sorted[1..]);
      assert sorted == [sorted[0]] + sorted[1..];
    }
  }

  lemma {:induction false} InsertSorts(edit: Edit, sorted: seq<Edit>)
    requires Sorted(sorted)
    ensures Sorted(Insert(edit, sorted))
  {
    if sorted != [] && edit.start > sorted[0].start {
      var rest := Insert(edit, sorted[1..]);
      InsertSorts(edit, sorted[1..]);
      InsertMembers(edit, sorted[1..]);
      forall i | 0 <= i < |rest|
        ensures sorted[0].start <= rest[i].start
      {
        assert rest[i] in multiset(rest);
        assert rest[i] == edit || rest[i] in sorted[1..];
      }
    }
  }

  lemma {:induction false} InsertIsStable(edit: Edit, sorted: seq<Edit>, position: nat)
    ensures StartingAt(Insert(edit, sorted), position) ==
      (if edit.start == position then [edit] else []) + StartingAt(sorted, position)
  {
    var inserted := Insert(edit, sorted);
    if sorted == [] || edit.start <= sorted[0].start {
      assert inserted[1..] == sorted;
    } else {
      InsertIsStable(edit, sorted[1..], position);
      assert inserted[1..] == Insert(edit, sorted[1..]);
    }
  }

  /** Sorting keeps, at every position, the collected edits in the collected order. */
  lemma {:induction false} SortIsStable(edits: seq<Edit>, position: nat)
    ensures Sorted(SortByStart(edits))
    ensures StartingAt(SortByStart(edits), position) == StartingAt(edits, position)
  {
    if edits != [] {
      SortIsStable(edits[1..], position);
      InsertSorts(edits[0], SortByStart(edits[1..]));
      InsertIsStable(edits[0], SortByStart(edits[1..]), position);
    }
  }

  lemma {:induction false} StartingAtMembers(edits: seq<Edit>, edit: Edit)
    ensures edit in edits <==> edit in StartingAt(edits, edit.start)
  {
    if edits != [] {
      StartingAtMembers(edits[1..], edit);
      assert edits == [edits[0]] + edits[1..];
    }
  }

  lemma SortKeepsMembers(edits: seq<Edit>, edit: Edit)
    ensures edit in SortByStart(edits) <==> edit in edits
  {
    SortIsStable(edits, edit.start);
    StartingAtMembers(edits, edit);
    StartingAtMembers(SortByStart(edits), edit);
  }

  // ---------------------------------------------------------------- splice

  /** Neighbouring edits of a sorted list do not overlap. */
  predicate Disjoint(edits: seq<Edit>) {
    forall i | 0 <= i < |edits| - 1 :: edits[i].end <= edits[i + 1].start
  }

  /** The output from the `k`-th edit of a sorted list on. */
  function Rendered(source: Bytes, edits: seq<Edit>, k: nat): Bytes
    requires k <= |edits| && AllInRange(source, edits) && Disjoint(edits)
    decreases |edits| - k
  {
    if k == |edits| then []
    else edits[k].replacement + source[edits[k].end..Next(source, edits, k + 1)] + Rendered(source, edits, k + 1)
  }

  /** Where the `k`-th edit starts, or the end of the source. */
  function Next(source: Bytes, edits: seq<Edit>, k: nat): nat
    requires k <= |edits|
  {
    if k == |edits| then |source| else edits[k].start
  }

  // ---------------------------------------------------------------- reference

  /** A byte that some edit replaces. */
  predicate Covered(edits: seq<Edit>, position: nat) {
    exists i | 0 <= i < |edits| :: edits[i].start <= position < edits[i].end
  }

  /** The replacements of the edits that start at a position, in collected order. */
  function Inserted(edits: seq<Edit>): Bytes {
    if edits == [] then [] else edits[0].replacement + Inserted(edits[1..])
  }

  /** What one position contributes: first what the edits that start there put, then the byte itself unless it is
      replaced. */
  function Emitted(source: Bytes, edits: seq<Edit>, position: nat): Bytes {
    Inserted(StartingAt(edits, position)) +
    if position >= |source| || Covered(edits, position) then [] else [source[position]]
  }

  /** The contributions of the positions `[position, stop]`, in order. */
  function Gather(emit: nat -> Bytes, position: nat, stop: nat): Bytes
    decreases stop + 1 - position
  {
    if position > stop then [] else emit(position) + Gather(emit, position + 1, stop)
  }

  /** All edits at once, from a position to the end. */
  function Simultaneous(source: Bytes, edits: seq<Edit>, position: nat): Bytes {
    Gather(p => Emitted(source, edits, p), position, |source|)
  }

  /** Edits that do not clash, as collected: an edit ends before any later start, and of several edits at one
      position all but the last collected are insertions. */
  ghost predicate Compatible(edits: seq<Edit>) {
    && (forall e, f | e in edits && f in edits && e.start < f.start :: e.end <= f.start)
    && (forall position: nat :: InsertionsButLast(StartingAt(edits, position)))
  }

  predicate InsertionsButLast(edits: seq<Edit>) {
    forall i | 0 <= i < |edits| - 1 :: edits[i].end <= edits[i].start
  }

  // ---------------------------------------------------------------- the overlap check

  lemma {:induction false} StartsElsewhere(edits: seq<Edit>, position: nat)
    requires forall i | 0 <= i < |edits| :: edits[i].start != position
    ensures StartingAt(edits, position) == []
  {
    if edits != [] {
      StartsElsewhere(edits[1..], position);
    }
  }

  lemma InsertionsNext(edit: Edit, edits: seq<Edit>)
    ensures InsertionsButLast([edit] + edits) <==>
      (InsertionsButLast(edits) && (edits != [] ==> edit.end <= edit.start))
  {
    if InsertionsButLast([edit] + edits) {
      assert edits != [] ==> ([edit] + edits)[0].end <= ([edit] + edits)[0].start;
      forall i | 0 <= i < |edits| - 1
        ensures edits[i].end <= edits[i].start
      {
        assert ([edit] + edits)[i + 1] == edits[i];
      }
    }
  }

  lemma DisjointNext(first: Edit, rest: seq<Edit>)
    ensures Disjoint([first] + rest) <==> (Disjoint(rest) && (rest != [] ==> first.end <= rest[0].start))
  {
    var edits := [first] + rest;
    if Disjoint(edits) {
      assert rest != [] ==> edits[0].end <= edits[0 + 1].start;
      forall i | 0 <= i < |rest| - 1
        ensures rest[i].end <= rest[i + 1].start
      {
        assert edits[i + 1].end <= edits[i + 1 + 1].start;
      }
    }
  }

  lemma StartingNext(first: Edit, rest: seq<Edit>, position: nat)
    ensures first.start == position ==> StartingAt([first] + rest, position) == [first] + StartingAt(rest, position)
    ensures first.start != position ==> StartingAt([first] + rest, position) == StartingAt(rest, position)
  {
    assert ([first] + rest)[1..] == rest;
  }

  /** In a sorted list, the head shares its start exactly when the next edit does. */
  lemma HeadSharesStart(first: Edit, rest: seq<Edit>)
    requires Sorted([first] + rest) && rest != []
    ensures first.start <= rest[0].start && forall f | f in rest :: rest[0].start <= f.start
    ensures StartingAt(rest, first.start) != [] <==> rest[0].start == first.start
  {
    var edits := [first] + rest;
    assert edits[0].start <= edits[1].start;
    forall i | 0 <= i < |rest|
      ensures rest[0].start <= rest[i].start
    {
      assert edits[1].start <= edits[i + 1].start;
    }
    if rest[0].start > first.start {
      StartsElsewhere(rest, first.start);
    }
  }

  lemma CompatibleTail(first: Edit, rest: seq<Edit>)
    requires Sorted([first] + rest) && Compatible([first] + rest)
    ensures Compatible(rest) && (rest != [] ==> first.end <= rest[0].start)
  {
    var edits := [first] + rest;
    forall position: nat
      ensures InsertionsButLast(StartingAt(rest, position))
    {
      assert InsertionsButLast(StartingAt(edits, position));
      StartingNext(first, rest, position);
      if first.start == position {
        InsertionsNext(first, StartingAt(rest, position));
      }
    }
    if rest != [] {
      HeadSharesStart(first, rest);
      assert first in edits && rest[0] in edits;
      assert InsertionsButLast(StartingAt(edits, first.start));
      StartingNext(first, rest, first.start);
      InsertionsNext(first, StartingAt(rest, first.start));
    }
  }

  lemma CompatibleCons(first: Edit, rest: seq<Edit>)
    requires Sorted([first] + rest) && Compatible(rest) && (rest != [] ==> first.end <= rest[0].start)
    ensures Compatible([first] + rest)
  {
    var edits := [first] + rest;
    if rest != [] {
      HeadSharesStart(first, rest);
    }
    forall position: nat
      ensures InsertionsButLast(StartingAt(edits, position))
    {
      assert InsertionsButLast(StartingAt(rest, position));
      StartingNext(first, rest, position);
      InsertionsNext(first, StartingAt(rest, position));
    }
  }

  /** On a sorted list, the check on neighbours decides compatibility. */
  lemma {:induction false} NeighboursDecide(edits: seq<Edit>)
    requires Sorted(edits)
    ensures Disjoint(edits) <==> Compatible(edits)
  {
    if edits != [] {
      var first, rest := edits[0], edits[1..];
      assert edits == [first] + rest;
      NeighboursDecide(rest);
      DisjointNext(first, rest);
      if Compatible(edits) {
        CompatibleTail(first, rest);
      }
      if Compatible(rest) && (rest != [] ==> first.end <= rest[0].start) {
        CompatibleCons(first, rest);
      }
    }
  }

  /** Sorting changes neither compatibility nor the simultaneous result. */
  lemma SortKeepsCompatible(edits: seq<Edit>)
    ensures Compatible(SortByStart(edits)) <==> Compatible(edits)
  {
    var sorted := SortByStart(edits);
    forall position: nat
      ensures StartingAt(sorted, position) == StartingAt(edits, position)
    {
      SortIsStable(edits, position);
    }
    forall e: Edit
      ensures e in sorted <==> e in edits
    {
      SortKeepsMembers(edits, e);
    }
  }

  lemma CoveredByMembers(edits: seq<Edit>, others: seq<Edit>, position: nat)
    requires forall e: Edit :: e in edits ==> e in others
    requires Covered(edits, position)
    ensures Covered(others, position)
  {
    var i :| 0 <= i < |edits| && edits[i].start <= position < edits[i].end;
    assert edits[i] in others;
  }

  lemma SortKeepsEmitted(source: Bytes, edits: seq<Edit>, position: nat)
    ensures Emitted(source, SortByStart(edits), position) == Emitted(source, edits, position)
  {
    var sorted := SortByStart(edits);
    SortIsStable(edits, position);
    forall e: Edit
      ensures e in sorted <==> e in edits
    {
      SortKeepsMembers(edits, e);
    }
    if Covered(edits, position) {
      CoveredByMembers(edits, sorted, position);
    }
    if Covered(sorted, position) {
      CoveredByMembers(sorted, edits, position);
    }
  }

  lemma SortKeepsSimultaneous(source: Bytes, edits: seq<Edit>)
    ensures Simultaneous(source, SortByStart(edits), 0) == Simultaneous(source, edits, 0)
  {
    var f, g := (p: nat) => Emitted(source, SortByStart(edits), p), (p: nat) => Emitted(source, edits, p);
    forall p: nat
      ensures f(p) == g(p)
    {
      SortKeepsEmitted(source, edits, p);
    }
    GatherSame(f, g, 0, |source|);
  }

  // ---------------------------------------------------------------- gathering

  lemma {:induction false} GatherSame(f: nat -> Bytes, g: nat -> Bytes, position: nat, stop: nat)
    requires forall p: nat | position <= p <= stop :: f(p) == g(p)
    ensures Gather(f, position, stop) == Gather(g, position, stop)
    decreases stop + 1 - position
  {
    if position <= stop {
      GatherSame(f, g, position + 1, stop);
    }
  }

  /** Positions that contribute nothing can be skipped. */
  lemma {:induction false} GatherSilent(f: nat -> Bytes, position: nat, next: nat, stop: nat)
    requires position <= next <= stop && forall p: nat | position <= p < next :: f(p) == []
    ensures Gather(f, position, stop) == Gather(f, next, stop)
    decreases next - position
  {
    if position < next {
      GatherSilent(f, position + 1, next, stop);
      assert [] + Gather(f, position + 1, stop) == Gather(f, position + 1, stop);
    }
  }

  /** Positions that contribute their own byte are copied. */
  lemma {:induction false} GatherCopies(f: nat -> Bytes, source: Bytes, position: nat, next: nat)
    requires position <= next <= |source| && forall p: nat | position <= p < next :: f(p) == [source[p]]
    ensures Gather(f, position, |source|) == source[position..next] + Gather(f, next, |source|)
    decreases next - position
  {
    var rest := Gather(f, next, |source|);
    if position == next {
      assert source[position..next] + rest == rest;
    } else {
      GatherCopies(f, source, position + 1, next);
      assert source[position..next] == [source[position]] + source[position + 1..next];
      Regroup([source[position]], source[position + 1..next], rest);
    }
  }

  lemma Regroup(x: Bytes, y: Bytes, z: Bytes)
    ensures x + y + z == x + (y + z)
  {
  }

  // ---------------------------------------------------------------- the splice

  /** An edit that ends before a position contributes nothing there. */
  lemma PastEditIsOver(source: Bytes, first: Edit, rest: seq<Edit>, position: nat)
    requires first.start < position && first.end <= position
    ensures Emitted(source, [first] + rest, position) == Emitted(source, rest, position)
  {
    StartingNext(first, rest, position);
    CoveredNext(first, rest, position);
  }

  lemma CoveredNext(first: Edit, rest: seq<Edit>, position: nat)
    ensures Covered([first] + rest, position) <==> first.start <= position < first.end || Covered(rest, position)
  {
    var edits := [first] + rest;
    if first.start <= position < first.end {
      assert edits[0].start <= position < edits[0].end;
    }
    if Covered(rest, position) {
      var i :| 0 <= i < |rest| && rest[i].start <= position < rest[i].end;
      assert edits[i + 1] == rest[i];
    }
  }

  /** A position where no edit starts and no byte is replaced is copied. */
  lemma PlainIsCopied(source: Bytes, edits: seq<Edit>, position: nat)
    requires position < |source| && forall i | 0 <= i < |edits| :: position < edits[i].start
    ensures Emitted(source, edits, position) == [source[position]]
  {
    StartsElsewhere(edits, position);
  }

  /** Before the first start, bytes are copied. */
  lemma CopiesUntil(source: Bytes, edits: seq<Edit>, position: nat, stop: nat)
    requires position <= stop <= |source| && forall i | 0 <= i < |edits| :: stop <= edits[i].start
    ensures Simultaneous(source, edits, position) == source[position..stop] + Simultaneous(source, edits, stop)
  {
    var f := (p: nat) => Emitted(source, edits, p);
    forall p: nat | position <= p < stop
      ensures f(p) == [source[p]]
    {
      PlainIsCopied(source, edits, p);
    }
    GatherCopies(f, source, position, stop);
  }

  lemma InsertedNext(first: Edit, rest: seq<Edit>)
    ensures Inserted([first] + rest) == first.replacement + Inserted(rest)
  {
    assert ([first] + rest)[1..] == rest;
  }

  /** An edit puts its replacement where it starts, before anything else. */
  lemma FirstEmits(source: Bytes, first: Edit, rest: seq<Edit>)
    requires InRange(source, first) && forall i | 0 <= i < |rest| :: first.end <= rest[i].start
    ensures first.start == first.end ==>
      Emitted(source, [first] + rest, first.start) == first.replacement + Emitted(source, rest, first.start)
    ensures first.start < first.end ==> Emitted(source, [first] + rest, first.start) == first.replacement
  {
    StartingNext(first, rest, first.start);
    CoveredNext(first, rest, first.start);
    InsertedNext(first, StartingAt(rest, first.start));
    if first.start < first.end {
      StartsElsewhere(rest, first.start);
    }
  }

  /** Inside a replaced range nothing is put. */
  lemma RangeIsSilent(source: Bytes, first: Edit, rest: seq<Edit>, position: nat)
    requires first.start < position < first.end && forall i | 0 <= i < |rest| :: first.end <= rest[i].start
    ensures Emitted(source, [first] + rest, position) == []
  {
    StartingNext(first, rest, position);
    StartsElsewhere(rest, position);
    CoveredNext(first, rest, position);
  }

  /** From the start of the first edit, its replacement is put and its range skipped. */
  lemma FirstEditApplies(source: Bytes, first: Edit, rest: seq<Edit>, edits: seq<Edit>)
    requires edits == [first] + rest && InRange(source, first)
    requires forall i | 0 <= i < |rest| :: first.end <= rest[i].start
    ensures Simultaneous(source, edits, first.start) == first.replacement + Simultaneous(source, rest, first.end)
  {
    var f, g := (p: nat) => Emitted(source, edits, p), (p: nat) => Emitted(source, rest, p);
    var start, end, stop := first.start, first.end, |source|;
    FirstEmits(source, first, rest);
    forall p: nat | start < p
      ensures end <= p ==> f(p) == g(p)
      ensures p < end ==> f(p) == []
    {
      if end <= p {
        PastEditIsOver(source, first, rest, p);
      } else {
        RangeIsSilent(source, first, rest, p);
      }
    }
    GatherEdit(f, g, first.replacement, start, end, stop);
  }

  /** One replacement followed by silence, then the contributions of the others. */
  lemma GatherEdit(f: nat -> Bytes, g: nat -> Bytes, replacement: Bytes, start: nat, end: nat, stop: nat)
    requires start <= end <= stop
    requires f(start) == if start < end then replacement else replacement + g(start)
    requires forall p: nat | start < p < end :: f(p) == []
    requires forall p: nat | start < p && end <= p :: f(p) == g(p)
    ensures Gather(f, start, stop) == replacement + Gather(g, end, stop)
  {
    if start < end {
      GatherSilent(f, start + 1, end, stop);
      GatherSame(f, g, end, stop);
    } else {
      GatherSame(f, g, start + 1, stop);
      Regroup(replacement, g(start), Gather(g, start + 1, stop));
    }
  }

  lemma NothingAtEnd(source: Bytes)
    ensures Simultaneous(source, [], |source|) == []
  {
    var f := (p: nat) => Emitted(source, [], p);
    assert f(|source|) == [];
    assert Gather(f, |source|, |source|) == f(|source|) + Gather(f, |source| + 1, |source|);
  }

  /** Right-to-left splicing of a sorted, disjoint list is simultaneous replacement. */
  lemma {:induction false} SpliceIsSimultaneous(source: Bytes, edits: seq<Edit>, k: nat, position: nat)
    requires k <= |edits| && AllInRange(source, edits) && Sorted(edits) && Disjoint(edits)
    requires position <= Next(source, edits, k) <= |source|
    ensures Simultaneous(source, edits[k..], position) ==
      source[position..Next(source, edits, k)] + Rendered(source, edits, k)
    decreases |edits| - k
  {
    var stop := Next(source, edits, k);
    CopiesUntil(source, edits[k..], position, stop);
    if k == |edits| {
      NothingAtEnd(source);
    } else {
      var first, rest := edits[k], edits[k + 1..];
      assert edits[k..] == [first] + rest;
      forall i | 0 <= i < |rest|
        ensures first.end <= rest[i].start
      {
        assert rest[i] == edits[k + 1 + i] && edits[k].end <= edits[k + 1].start;
      }
      FirstEditApplies(source, first, rest, edits[k..]);
      SpliceIsSimultaneous(source, edits, k + 1, first.end);
      Regroup(first.replacement, source[first.end..Next(source, edits, k + 1)], Rendered(source, edits, k + 1));
    }
  }

  /** The splice loop, from the last edit to the first. */
  method Splice(source: Bytes, sorted: seq<Edit>) returns (text: Bytes)
    requires AllInRange(source, sorted) && Sorted(sorted) && Disjoint(sorted)
    ensures text == Simultaneous(source, sorted, 0)
  {
    text := source;
    var k := |sorted|;
    assert source == source[..Next(source, sorted, k)] + Rendered(source, sorted, k);
    while k > 0
      invariant 0 <= k <= |sorted|
      invariant text == source[..Next(source, sorted, k)] + Rendered(source, sorted, k)
    {
      k := k - 1;
      var edit := sorted[k];
      assert InRange(source, edit);
      ReplaceRange(source, edit, Next(source, sorted, k + 1), Rendered(source, sorted, k + 1));
      text := text[..edit.start] + edit.replacement + text[edit.end..];
    }
    assert sorted[0..] == sorted;
    SpliceIsSimultaneous(source, sorted, 0, 0);
  }

  /** Replacing a range that ends before the part already spliced. */
  lemma ReplaceRange(source: Bytes, edit: Edit, next: nat, rendered: Bytes)
    requires InRange(source, edit) && edit.end <= next <= |source|
    ensures var text := source[..next] + rendered;
      && edit.end <= |text|
      && text[..edit.start] + edit.replacement + text[edit.end..] ==
         source[..edit.start] + (edit.replacement + source[edit.end..next] + rendered)
  {
    var text := source[..next] + rendered;
    assert text[..edit.start] == source[..edit.start];
    assert text[edit.end..] == source[edit.end..next] + rendered;
  }

  /** `edit_document`: succeeds exactly on edits that do not clash, and then replaces all ranges at once. */
  method EditDocument(source: Bytes, edits: seq<Edit>) returns (result: Result<Bytes, SourceEditError>)
    requires AllInRange(source, edits)
    ensures result.Ok? <==> Compatible(edits)
    ensures result.Ok? ==> result.value == Simultaneous(source, edits, 0)
  {
    var sorted := SortByStart(edits);
    forall i | 0 <= i < |sorted|
      ensures InRange(source, sorted[i])
    {
      SortKeepsMembers(edits, sorted[i]);
    }
    SortIsStable(edits, 0);
    NeighboursDecide(sorted);
    SortKeepsCompatible(edits);
    var k := 0;
    while k + 1 < |sorted|
      invariant 0 <= k <= |sorted|
      invariant forall i | 0 <= i < k && i + 1 < |sorted| :: sorted[i].end <= sorted[i + 1].start
    {
      if sorted[k].end > sorted[k + 1].start {
        assert !Disjoint(sorted);
        return Err(UnsupportedSyntax);
      }
      k := k + 1;
    }
    assert Disjoint(sorted);
    SortKeepsSimultaneous(source, edits);
    var text := Splice(source, sorted);
    result := Ok(text);
  }
}
