/** The bitmap page allocator: one bit per physical page, in 32-bit words. */
module PageAllocator {
  import opened Common
  import opened PageSet
  import opened Words

  const PAGE_SIZE: nat := 4096
  const PHYS_PAGES: nat := 4096
  const BITMAP_WORDS: nat := 128
  const RESERVED_PAGES: nat := 512

  // ----- the bitmap

  predicate Marked(words: seq<bv32>, page: nat)
    requires |words| == BITMAP_WORDS && page < PHYS_PAGES
  {
    Bit(words[page / 32], page % 32)
  }

  /** The pages whose bit is set. */
  ghost function UsedPages(words: seq<bv32>): set<nat>
    requires |words| == BITMAP_WORDS
  {
    set p: nat | p < PHYS_PAGES && Marked(words, p)
  }

  lemma SetMarks(words: seq<bv32>, page: nat)
    requires |words| == BITMAP_WORDS && page < PHYS_PAGES
    ensures UsedPages(words[page / 32 := Or(words[page / 32], Mask(page % 32))]) == UsedPages(words) + {page}
  {
    var words' := words[page / 32 := Or(words[page / 32], Mask(page % 32))];
    hide Bit, Mask, Or, AndNot;
    forall p: nat | p < PHYS_PAGES ensures Marked(words', p) <==> Marked(words, p) || p == page {
      BitAfter(words[page / 32], page % 32, p % 32);
    }
  }

  lemma ClearUnmarks(words: seq<bv32>, page: nat)
    requires |words| == BITMAP_WORDS && page < PHYS_PAGES
    ensures UsedPages(words[page / 32 := AndNot(words[page / 32], Mask(page % 32))]) == UsedPages(words) - {page}
  {
    var words' := words[page / 32 := AndNot(words[page / 32], Mask(page % 32))];
    hide Bit, Mask, Or, AndNot;
    forall p: nat | p < PHYS_PAGES ensures Marked(words', p) <==> Marked(words, p) && p != page {
      BitAfter(words[page / 32], page % 32, p % 32);
    }
  }

  /** What `memory_init` starts from: the first two megabytes reserved, nothing handed out. */
  ghost const START := Ledger(Pages(0, RESERVED_PAGES), 0, {})

  lemma StartIsSound()
    ensures Sound(START, PHYS_PAGES, Pages(0, RESERVED_PAGES))
  {
    hide Pages;
    PagesSize(0, RESERVED_PAGES);
  }

  /** From there on, as long as only live runs are freed, they never overlap, and the counter is the
      number of pages in use less the 512 reserved ones. Those stay in use, and the last page stays free. */
  lemma EveryRunFromStart(steps: seq<PageStep>)
    requires LegalRun(START, PHYS_PAGES, steps)
    ensures var l := LedgerAfter(START, PHYS_PAGES, steps);
      && Sound(l, PHYS_PAGES, Pages(0, RESERVED_PAGES)) && |l.used| == 512 + l.total
      && (forall p: nat :: p < 512 ==> p in l.used) && 4095 !in l.used
  {
    hide Pages, LegalRun, LedgerAfter;
    StartIsSound();
    EveryRunIsSound(START, PHYS_PAGES, Pages(0, RESERVED_PAGES), steps);
    LastPageStaysFree(START, PHYS_PAGES, steps);
    PagesSize(0, RESERVED_PAGES);
  }

  class Allocator {
    const bitmap: array<bv32>
    var total: nat  // total_allocated_pages

    ghost predicate Valid()
      reads this
    {
      bitmap.Length == BITMAP_WORDS && total < WORD_VALUES
    }

    ghost function Used(): set<nat>
      requires Valid()
      reads this, bitmap
    {
      UsedPages(bitmap[..])
    }

    /** The part of `memory_init` that reserves the first two megabytes. */
    constructor ()
      ensures Valid() && fresh(bitmap)
      ensures Used() == Pages(0, RESERVED_PAGES) && total == 0
    {
      bitmap := new bv32[BITMAP_WORDS];
      total := 0;
      new;
      for i := 0 to BITMAP_WORDS
        modifies bitmap
        invariant forall j :: 0 <= j < i ==> bitmap[j] == 0
      {
        bitmap[i] := 0;
      }
      assert Used() == {} by {
        forall p: nat | p < PHYS_PAGES ensures !Marked(bitmap[..], p) {
          assert bitmap[p / 32] == 0;
        }
      }
      for i := 0 to RESERVED_PAGES
        modifies bitmap
        invariant Used() == Pages(0, i)
      {
        Set(i);
      }
    }

    method Set(page: nat)
      requires Valid() && page < PHYS_PAGES
      modifies bitmap
      ensures Used() == old(Used()) + {page}
    {
      hide UsedPages, Mask, Or, AndNot;
      SetMarks(bitmap[..], page);
      bitmap[page / 32] := Or(bitmap[page / 32], Mask(page % 32));
      assert bitmap[..] == old(bitmap[..])[page / 32 := Or(old(bitmap[page / 32]), Mask(page % 32))];
    }

    method Clear(page: nat)
      requires Valid() && page < PHYS_PAGES
      modifies bitmap
      ensures Used() == old(Used()) - {page}
    {
      hide UsedPages, Mask, Or, AndNot;
      ClearUnmarks(bitmap[..], page);
      bitmap[page / 32] := AndNot(bitmap[page / 32], Mask(page % 32));
      assert bitmap[..] == old(bitmap[..])[page / 32 := AndNot(old(bitmap[page / 32]), Mask(page % 32))];
    }

    method Test(page: nat) returns (used: bool)
      requires Valid() && page < PHYS_PAGES
      ensures used <==> page in Used()
    {
      used := And(bitmap[page / 32], Mask(page % 32)) != 0;
    }

    /** Whether the pages `first .. first + count` are all free. */
    method TestRun(first: nat, count: nat) returns (free: bool)
      requires Valid() && first + count <= PHYS_PAGES
      ensures free <==> RunFree(Used(), first, count)
    {
      for j := 0 to count
        invariant RunFree(Used(), first, j)
      {
        var used := Test(first + j);
        if used {
          return false;
        }
      }
      return true;
    }

    method MarkRun(first: nat, count: nat)
      requires Valid() && first + count <= PHYS_PAGES
      modifies bitmap
      ensures Used() == old(Used()) + Pages(first, count)
    {
      for j := 0 to count
        invariant Used() == old(Used()) + Pages(first, j)
      {
        Set(first + j);
      }
    }

    /** The lowest run of `count` free pages that ends before the last page, as a page number. The
        source returns the address of its first page, and null when there is none. */
    method Alloc(count: nat) returns (first: Option<nat>)
      requires Valid() && count <= PHYS_PAGES
      modifies this, bitmap
      ensures Valid() && first == Find(old(Used()), PHYS_PAGES, count)
      ensures Used() == old(Used()) + (if first.Some? then Pages(first.value, count) else {})
      ensures total == if first.Some? then Wrap(old(total) + count) else old(total)
    {
      hide UsedPages, Pages, RunFree;
      ghost var used := Used();
      ghost var found := Find(used, PHYS_PAGES, count);
      var i := 0;
      while i < PHYS_PAGES - count
        invariant 0 <= i <= PHYS_PAGES - count && total == old(total) && Used() == used
        invariant forall k: nat :: k < i ==> !Candidate(used, PHYS_PAGES, k, count)
      {
        var free := TestRun(i, count);
        if free {
          FindIsUnique(used, PHYS_PAGES, count, Some(i), found);
          MarkRun(i, count);
          total := Wrap(total + count);
          return Some(i);
        }
        i := i + 1;
      }
      FindIsUnique(used, PHYS_PAGES, count, None, found);
      return None;
    }

    method Free(first: nat, count: nat)
      requires Valid() && first + count <= PHYS_PAGES
      modifies this, bitmap
      ensures Valid() && Used() == old(Used()) - Pages(first, count)
      ensures total == Wrap(old(total) - count)
    {
      ghost var used := Used();
      for i := 0 to count
        modifies bitmap
        invariant Used() == used - Pages(first, i)
      {
        Clear(first + i);
        assert Pages(first, i + 1) == Pages(first, i) + {first + i};
      }
      total := Wrap(total - count);
    }
  }
}
