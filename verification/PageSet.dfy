/** Physical pages as a set: what allocating and freeing runs of pages means. */
module PageSet {
  import opened Common

  /** The pages `first .. first + count`. */
  function Pages(first: nat, count: nat): (s: set<nat>)
    ensures forall p: nat :: p in s <==> first <= p < first + count
  {
    if count == 0 then {} else Pages(first, count - 1) + {first + count - 1}
  }

  ghost predicate RunFree(used: set<nat>, first: nat, count: nat) {
    forall p: nat :: first <= p < first + count ==> p !in used
  }

  /** The allocator's search: starts from 0 up, where the bound leaves the last page out of every run. */
  ghost predicate Candidate(used: set<nat>, total: nat, first: nat, count: nat) {
    first + count < total && RunFree(used, first, count)
  }

  /** `first` is what a search for `count` pages out of `total` finds: the lowest candidate, if any. */
  ghost predicate Finds(used: set<nat>, total: nat, count: nat, first: Option<nat>) {
    match first
    case None => forall i: nat :: !Candidate(used, total, i, count)
    case Some(f) => Candidate(used, total, f, count) && forall i: nat :: i < f ==> !Candidate(used, total, i, count)
  }

  /** The search as a function. */
  ghost function Find(used: set<nat>, total: nat, count: nat): (first: Option<nat>)
    ensures Finds(used, total, count, first)
  {
    FindFrom(used, total, count, 0)
  }

  ghost function FindFrom(used: set<nat>, total: nat, count: nat, i: nat): (first: Option<nat>)
    requires forall j: nat :: j < i ==> !Candidate(used, total, j, count)
    ensures Finds(used, total, count, first)
    decreases total - i
  {
    if i + count >= total then None
    else if Candidate(used, total, i, count) then Some(i)
    else FindFrom(used, total, count, i + 1)
  }

  /** What the caller makes of it: the address of page 0 is null, and looks like a failure. */
  function NonNull(found: Option<nat>): Option<nat> {
    if found == Some(0) then None else found
  }

  /** The pages in use after the search, page 0 included if it was found. */
  ghost function Requested(used: set<nat>, total: nat, count: nat): set<nat> {
    var found := Find(used, total, count);
    if found.Some? then used + Pages(found.value, count) else used
  }

  /** Page 0 in use is never found. */
  lemma FoundIsNonNull(used: set<nat>, total: nat, count: nat)
    requires 0 in used && count > 0
    ensures NonNull(Find(used, total, count)) == Find(used, total, count)
  {
    var found := Find(used, total, count);
    assert found.Some? ==> Candidate(used, total, found.value, count);
  }

  lemma FindIsUnique(used: set<nat>, total: nat, count: nat, a: Option<nat>, b: Option<nat>)
    requires Finds(used, total, count, a) && Finds(used, total, count, b)
    ensures a == b
  {
    if a.Some? && b.Some? {
      assert !(a.value < b.value) && !(b.value < a.value);
    }
  }

  lemma FoundIsFree(used: set<nat>, pages: nat)
    ensures var found := Find(used, pages, 1); found.Some? ==> found.value !in used
  {
    var found := Find(used, pages, 1);
    assert found.Some? ==> Candidate(used, pages, found.value, 1);
  }

  lemma OnePage(p: nat)
    ensures Pages(p, 1) == {p}
  {
  }

  lemma PagesSize(first: nat, count: nat)
    ensures |Pages(first, count)| == count
  {
    if count == 0 {
      assert Pages(first, count) == {};
    } else {
      PagesSize(first, count - 1);
      assert Pages(first, count) == Pages(first, count - 1) + {first + count - 1};
    }
  }

  /** Allocating takes exactly `count` pages, none of them in use, and freeing them again restores
      the set. */
  lemma AllocThenFree(used: set<nat>, total: nat, count: nat, first: nat)
    requires Finds(used, total, count, Some(first))
    ensures used !! Pages(first, count)
    ensures |used + Pages(first, count)| == |used| + count
    ensures (used + Pages(first, count)) - Pages(first, count) == used
  {
    PagesSize(first, count);
    assert used !! Pages(first, count);
    assert (used + Pages(first, count)) - Pages(first, count) == used;
    assert |used + Pages(first, count)| == |used| + |Pages(first, count)|;
  }

  // ----- every run of allocations and frees

  datatype PageRun = PageRun(first: nat, count: nat)

  /** The pages in use, the allocator's counter, and the runs handed out and not yet freed. */
  datatype Ledger = Ledger(used: set<nat>, total: nat, live: set<PageRun>)

  datatype PageStep = AllocStep(count: nat) | FreeStep(run: PageRun)

  /** Only what was handed out is freed. */
  ghost predicate LegalPages(l: Ledger, pages: nat, step: PageStep) {
    match step
    case AllocStep(count) => 1 <= count <= pages
    case FreeStep(run) => run in l.live
  }

  ghost function NextLedger(l: Ledger, pages: nat, step: PageStep): Ledger {
    match step
    case AllocStep(count) =>
      var first := Find(l.used, pages, count);
      if first.None? then l
      else Ledger(l.used + Pages(first.value, count), Wrap(l.total + count), l.live + {PageRun(first.value, count)})
    case FreeStep(run) =>
      Ledger(l.used - Pages(run.first, run.count), Wrap(l.total - run.count), l.live - {run})
  }

  /** Live runs are in use, are apart from each other and from the reserved pages, and the counter
      counts exactly the pages that are in use and not reserved. */
  ghost predicate Sound(l: Ledger, pages: nat, reserved: set<nat>) {
    && reserved <= l.used
    && (forall r :: r in l.live ==>
      1 <= r.count && r.first + r.count < pages && Pages(r.first, r.count) <= l.used - reserved)
    && (forall r, s :: r in l.live && s in l.live && r != s ==> Pages(r.first, r.count) !! Pages(s.first, s.count))
    && |l.used| == |reserved| + l.total < WORD_VALUES
    && (forall p :: p in l.used ==> p < pages)
  }

  lemma SubsetSize(a: set<nat>, pages: nat)
    requires forall p :: p in a ==> p < pages
    ensures |a| <= pages
  {
    PagesSize(0, pages);
    SetSize(a, Pages(0, pages));
  }

  lemma SetSize<T>(a: set<T>, b: set<T>)
    requires a <= b
    ensures |a| <= |b| && |b - a| == |b| - |a|
  {
    assert b == a + (b - a);
    assert |b| == |a| + |b - a|;
  }

  /** An allocation is apart from the reserved pages and from every live run. */
  lemma AllocKeepsSound(l: Ledger, pages: nat, reserved: set<nat>, count: nat)
    requires Sound(l, pages, reserved) && 1 <= count <= pages < WORD_VALUES
    ensures Sound(NextLedger(l, pages, AllocStep(count)), pages, reserved)
    ensures Find(l.used, pages, count).Some? ==>
      var run := Pages(Find(l.used, pages, count).value, count);
      run !! reserved && forall r :: r in l.live ==> run !! Pages(r.first, r.count)
  {
    hide Pages;
    var first := Find(l.used, pages, count);
    if first.Some? {
      AllocThenFree(l.used, pages, count, first.value);
      SubsetSize(NextLedger(l, pages, AllocStep(count)).used, pages);
    }
  }

  lemma FreeKeepsSound(l: Ledger, pages: nat, reserved: set<nat>, run: PageRun)
    requires Sound(l, pages, reserved) && run in l.live
    ensures Sound(NextLedger(l, pages, FreeStep(run)), pages, reserved)
  {
    hide Pages;
    var freed := Pages(run.first, run.count);
    PagesSize(run.first, run.count);
    SetSize(freed, l.used);
    SetSize(freed, l.used - reserved);
    SetSize(reserved, l.used);
  }

  lemma NextKeepsSound(l: Ledger, pages: nat, reserved: set<nat>, step: PageStep)
    requires Sound(l, pages, reserved) && LegalPages(l, pages, step) && pages < WORD_VALUES
    ensures Sound(NextLedger(l, pages, step), pages, reserved)
  {
    hide Sound;
    match step
    case AllocStep(count) => AllocKeepsSound(l, pages, reserved, count);
    case FreeStep(run) => FreeKeepsSound(l, pages, reserved, run);
  }

  ghost predicate LegalRun(l: Ledger, pages: nat, steps: seq<PageStep>)
    decreases |steps|
  {
    steps != [] ==> LegalPages(l, pages, steps[0]) && LegalRun(NextLedger(l, pages, steps[0]), pages, steps[1..])
  }

  ghost function LedgerAfter(l: Ledger, pages: nat, steps: seq<PageStep>): Ledger
    decreases |steps|
  {
    if steps == [] then l else LedgerAfter(NextLedger(l, pages, steps[0]), pages, steps[1..])
  }

  /** In every run in which only live runs are freed, runs never overlap and the counter is exact. */
  lemma {:induction false} EveryRunIsSound(l: Ledger, pages: nat, reserved: set<nat>, steps: seq<PageStep>)
    requires Sound(l, pages, reserved) && LegalRun(l, pages, steps) && pages < WORD_VALUES
    ensures Sound(LedgerAfter(l, pages, steps), pages, reserved)
    decreases |steps|
  {
    if steps != [] {
      NextKeepsSound(l, pages, reserved, steps[0]);
      EveryRunIsSound(NextLedger(l, pages, steps[0]), pages, reserved, steps[1..]);
    }
  }

  /** A single page is found as long as one is free, the last one not counting. */
  lemma FindOneIff(used: set<nat>, pages: nat)
    ensures Find(used, pages, 1).None? <==> forall p: nat :: p + 1 < pages ==> p in used
  {
    if Find(used, pages, 1).None? {
      forall p: nat | p + 1 < pages ensures p in used {
        assert !Candidate(used, pages, p, 1);
      }
    } else {
      var p := Find(used, pages, 1).value;
      assert Candidate(used, pages, p, 1);
      assert p + 1 < pages && p !in used;
    }
  }

  /** The last page is never handed out. */
  lemma {:induction false} LastPageStaysFree(l: Ledger, pages: nat, steps: seq<PageStep>)
    requires pages > 0 && pages - 1 !in l.used
    ensures pages - 1 !in LedgerAfter(l, pages, steps).used
    decreases |steps|
  {
    if steps != [] {
      if steps[0].AllocStep? {
        var first := Find(l.used, pages, steps[0].count);
        assert first.Some? ==> Candidate(l.used, pages, first.value, steps[0].count);
      }
      LastPageStaysFree(NextLedger(l, pages, steps[0]), pages, steps[1..]);
    }
  }
}
