/**
 * The condensed page table of the generational collector and its copy in a core file.
 *
 * `half` is half a page in bytes (a page is `2 * half`), `max` the greatest value the stored
 * scan start may have.  Words are 8 bytes; the condensed form exists on 64-bit targets only.
 * Masks and shifts by powers of two are written as `%`, `/` and `*`.
 */
module PageTable {
  import opened Arith

  /** One page table entry; `flags` is the source's `type` byte, `sso` its encoded scan start. */
  datatype Page = Page(flags: nat, wordsUsed: nat, sso: nat, gen: nat)

  /** One entry as written to the core file. */
  datatype CorePte = CorePte(sso: nat, wordsUsed: nat)

  const FreePage: nat := 0
  const SingleObject: nat := 16
  const CoreGeneration: nat := 6

  /** The page size is a power of two of many words, and the low bit of `max` is the scale bit. */
  predicate Parameters(half: nat, max: nat) {
    half > 0 && half % 16 == 0 && max % 2 == 1
  }

  predicate Aligned(half: nat, offset: nat)
    requires half > 0
  {
    offset % (2 * half) == 0
  }

  /** The stored form of an offset before clipping. */
  function Scaled(half: nat, offset: nat): (c: nat)
    requires half > 0
  {
    if offset != 0 && Aligned(half, offset) then offset / half + 1 else offset / 8
  }

  function Encode(half: nat, max: nat, offset: nat): (c: nat)
    requires half > 0
    ensures c <= max
  {
    if Scaled(half, offset) > max then max else Scaled(half, offset)
  }

  /** The value of a code that is not the maximum. */
  function Direct(half: nat, code: nat): (offset: nat) {
    if code % 2 == 1 then (code - 1) * half else code * 8
  }

  /** What the accessor returns while the code is not the maximum: see `DirectExactly`. */
  predicate Storable(half: nat, max: nat, offset: nat)
    requires half > 0
  {
    offset % 16 == 0 && (!Aligned(half, offset) ==> offset / 8 <= max)
  }

  /** The codes of whole numbers of pages. */
  lemma AlignedOffset(half: nat, k: nat)
    requires half > 0
    ensures Aligned(half, k * (2 * half))
    ensures Scaled(half, k * (2 * half)) == if k == 0 then 0 else 2 * k + 1
  {
    Quotient(2 * half, k);
    Quotient(half, 2 * k);
    assert k * (2 * half) == (2 * k) * half;
    if k > 0 { MulLe(2 * half, 1, k); }
  }

  /** An aligned offset is a whole number of pages. */
  lemma PagesOf(half: nat, offset: nat) returns (k: nat)
    requires half > 0 && Aligned(half, offset)
    ensures offset == k * (2 * half)
  {
    k := offset / (2 * half);
  }

  lemma DirectPages(half: nat, k: nat)
    ensures Direct(half, 2 * k + 1) == k * (2 * half)
  {
    assert (2 * k) * half == k * (2 * half);
  }

  lemma DirectEven(half: nat, m: nat)
    ensures Direct(half, 2 * m) == 16 * m
  {
  }

  /**
   * Unless it was clipped to the maximum, a stored offset is read back exactly when it is a
   * multiple of a double word: an odd number of words would be taken for a number of pages.
   */
  lemma DirectExactly(half: nat, max: nat, offset: nat)
    requires Parameters(half, max) && offset % 8 == 0 && Scaled(half, offset) < max
    ensures Direct(half, Encode(half, max, offset)) == offset <==> offset % 16 == 0
  {
    hide Aligned, Direct;
    if Aligned(half, offset) {
      DirectAligned(half, max, offset);
    } else {
      var m := offset / 16;
      if offset % 16 == 0 {
        DirectEven(half, m);
      } else {
        DirectPages(half, m);
        AlignedDouble(half, m);
      }
    }
  }

  lemma DirectAligned(half: nat, max: nat, offset: nat)
    requires Parameters(half, max) && Aligned(half, offset) && Scaled(half, offset) < max
    ensures Direct(half, Encode(half, max, offset)) == offset && offset % 16 == 0
  {
    hide Aligned, Scaled, Direct;
    var k := PagesOf(half, offset);
    AlignedOffset(half, k);
    AlignedDouble(half, k);
    DirectPages(half, k);
    DirectEven(half, k);
  }

  lemma AlignedDouble(half: nat, k: nat)
    requires half % 16 == 0
    ensures (k * (2 * half)) % 16 == 0
  {
    var m := half / 16;
    assert k * (2 * half) == 16 * (2 * k * m);
  }

  // A page table that holds given scan starts.

  predicate Free(page: Page) {
    page.flags == FreePage
  }

  /**
   * Page `i` of a block of `k` whole pages up to it: the pages back to the block's start are in
   * use and their offsets lead to the same start.
   */
  predicate Chain(pages: seq<Page>, offsets: seq<nat>, half: nat, i: nat)
    requires |offsets| == |pages| && i < |pages|
  {
    forall j: nat | j <= i && (i - j) * (2 * half) <= offsets[i] ::
      !Free(pages[j]) && offsets[j] == offsets[i] - (i - j) * (2 * half)
  }

  /**
   * `pages` stores the scan start offsets `offsets`.  A free page may hold any code but the
   * maximum, left over from its last use.
   */
  predicate Stores(pages: seq<Page>, offsets: seq<nat>, half: nat, max: nat) {
    && half > 0
    && |offsets| == |pages|
    && forall i | 0 <= i < |pages| ::
         if Free(pages[i]) then pages[i].sso != max && offsets[i] == Direct(half, pages[i].sso)
         else
           && pages[i].sso == Encode(half, max, offsets[i])
           && Storable(half, max, offsets[i])
           && offsets[i] <= i * (2 * half)
           && (Aligned(half, offsets[i]) ==> Chain(pages, offsets, half, i))
  }

  function BlockOffsets(half: nat, n: nat): (offsets: seq<nat>)
    ensures |offsets| == n && forall i | 0 <= i < n :: offsets[i] == i * (2 * half)
  {
    seq(n, i requires 0 <= i < n => i * (2 * half))
  }

  /** The pages of one page-aligned block of any length, each coded from its own offset. */
  lemma BlockStored(pages: seq<Page>, half: nat, max: nat)
    requires Parameters(half, max)
    requires forall i | 0 <= i < |pages| ::
      !Free(pages[i]) && pages[i].sso == Encode(half, max, BlockOffsets(half, |pages|)[i])
    ensures Stores(pages, BlockOffsets(half, |pages|), half, max)
  {
    hide Encode, Aligned;
    var offsets := BlockOffsets(half, |pages|);
    forall i: nat | i < |pages|
      ensures Storable(half, max, offsets[i]) && Chain(pages, offsets, half, i)
    {
      AlignedOffset(half, i);
      AlignedDouble(half, i);
      forall j: nat | j <= i ensures offsets[j] == offsets[i] - (i - j) * (2 * half) {
        MulLe(2 * half, j, i);
      }
    }
  }

  method SetPageScanStartOffset(table: array<Page>, index: nat, offset: nat, half: nat, max: nat)
    requires Parameters(half, max) && index < table.Length
    requires Storable(half, max, offset)
    modifies table
    ensures table[..] == old(table[..])[index := old(table[index]).(sso := Encode(half, max, offset))]
  {
    hide Aligned;
    var lsb := offset != 0 && Aligned(half, offset);
    var scaled := if lsb then offset / half + 1 else offset / 8;
    if scaled > max {
      assert lsb;
      scaled := max;
    }
    table[index] := table[index].(sso := scaled);
  }

  /** How many pages the loop of the iterated accessor has gone back after `n` rounds. */
  ghost function Lookback(pages: seq<Page>, index: nat, n: nat): (tot: int) {
    if n == 0 then 0 else
    var tot := Lookback(pages, index, n - 1);
    if 0 <= index - tot < |pages| then tot + pages[index - tot].sso / 2 else tot
  }

  /** The code that the loop reads in round `n`; it goes on while that is the maximum. */
  ghost function CodeRead(pages: seq<Page>, index: nat, n: nat): (code: nat)
    requires 0 <= index - Lookback(pages, index, n) < |pages|
  {
    pages[index - Lookback(pages, index, n)].sso
  }

  /**
   * With a maximum of 1 the loop reads the maximum in every round, so never leaves a clipped
   * page: the maximum must be 3 or more for the accessor to return at all.
   */
  lemma {:induction false} MaxOneNeverReturns(pages: seq<Page>, index: nat, n: nat)
    requires index < |pages| && pages[index].sso == 1
    ensures Lookback(pages, index, n) == 0 && CodeRead(pages, index, n) == 1
  {
    if n > 0 { MaxOneNeverReturns(pages, index, n - 1); }
  }

  /** One step back from a clipped page lands on the page whose offset is that much smaller. */
  lemma StepBack(pages: seq<Page>, offsets: seq<nat>, half: nat, max: nat, i: nat)
    requires Parameters(half, max) && max >= 3 && Stores(pages, offsets, half, max)
    requires i < |pages| && !Free(pages[i]) && pages[i].sso == max
    ensures max / 2 <= i && !Free(pages[i - max / 2])
    ensures offsets[i - max / 2] == offsets[i] - (max / 2) * (2 * half)
    ensures Aligned(half, offsets[i]) && Aligned(half, offsets[i - max / 2])
  {
    var d := max / 2;
    ClippedAligned(half, max, offsets[i]);
    var k := PagesOf(half, offsets[i]);
    AlignedOffset(half, k);
    assert d <= k;
    MulLe(2 * half, d, k);
    if i < k { MulLt(2 * half, i, k); }
    var j: nat := i - d;
    assert (i - j) * (2 * half) <= offsets[i];
    assert offsets[j] == (k - d) * (2 * half);
    AlignedOffset(half, k - d);
  }

  lemma ClippedAligned(half: nat, max: nat, offset: nat)
    requires Parameters(half, max) && Storable(half, max, offset) && Encode(half, max, offset) == max
    ensures Aligned(half, offset) && offset != 0
  {
  }

  lemma MulLe(u: nat, a: nat, b: nat)
    requires a <= b
    ensures a * u <= b * u && b * u - a * u == (b - a) * u
  {
  }

  lemma MulLt(u: nat, a: nat, b: nat)
    requires u > 0 && a < b
    ensures a * u < b * u
  {
  }

  /** On a page whose aligned offset is not clipped the code counts the pages back to the start. */
  lemma LastStep(half: nat, max: nat, i: nat, offset: nat)
    requires Parameters(half, max) && Aligned(half, offset) && Encode(half, max, offset) != max
    requires offset <= i * (2 * half)
    ensures Encode(half, max, offset) / 2 <= i
    ensures (Encode(half, max, offset) / 2) * (2 * half) == offset
  {
    hide Aligned;
    var k := PagesOf(half, offset);
    AlignedOffset(half, k);
    if i < k { MulLt(2 * half, i, k); }
  }

  lemma LookbackStep(pages: seq<Page>, index: nat, n: nat)
    requires 0 <= index - Lookback(pages, index, n) < |pages|
    ensures Lookback(pages, index, n + 1) == Lookback(pages, index, n) + CodeRead(pages, index, n) / 2
  {
  }

  lemma LookbackStart(pages: seq<Page>, index: nat)
    ensures Lookback(pages, index, 0) == 0
  {
  }

  /** Where the loop stands `tot` pages back: its page is in use and leads to the same start. */
  ghost predicate OnTheWay(pages: seq<Page>, offsets: seq<nat>, half: nat, index: nat, tot: nat) {
    && half > 0 && |offsets| == |pages| && tot <= index < |pages|
    && !Free(pages[index - tot]) && Aligned(half, offsets[index - tot])
    && offsets[index - tot] == offsets[index] - tot * (2 * half)
  }

  lemma GoOn(pages: seq<Page>, offsets: seq<nat>, half: nat, max: nat, index: nat, tot: nat)
    requires Parameters(half, max) && max >= 3 && Stores(pages, offsets, half, max)
    requires OnTheWay(pages, offsets, half, index, tot) && pages[index - tot].sso == max
    ensures OnTheWay(pages, offsets, half, index, tot + max / 2)
  {
    hide Stores, Aligned, Encode, Parameters;
    StepBack(pages, offsets, half, max, index - tot);
    assert (tot + max / 2) * (2 * half) == tot * (2 * half) + (max / 2) * (2 * half);
  }

  lemma Stop(pages: seq<Page>, offsets: seq<nat>, half: nat, max: nat, index: nat, tot: nat)
    requires Parameters(half, max) && Stores(pages, offsets, half, max)
    requires OnTheWay(pages, offsets, half, index, tot) && pages[index - tot].sso != max
    ensures (tot + pages[index - tot].sso / 2) * (2 * half) == offsets[index]
  {
    hide Stores, Aligned, Encode, Parameters;
    var code := pages[index - tot].sso;
    StoredCode(pages, offsets, half, max, index - tot);
    LastStep(half, max, index - tot, offsets[index - tot]);
    assert (tot + code / 2) * (2 * half) == tot * (2 * half) + (code / 2) * (2 * half);
  }

  lemma SetOut(pages: seq<Page>, offsets: seq<nat>, half: nat, max: nat, index: nat)
    requires Parameters(half, max) && max >= 3 && Stores(pages, offsets, half, max)
    requires index < |pages| && !Free(pages[index]) && pages[index].sso == max
    ensures OnTheWay(pages, offsets, half, index, 0)
  {
    hide Stores, Aligned, Encode, Parameters;
    StoredCode(pages, offsets, half, max, index);
    StepBack(pages, offsets, half, max, index);
  }

  method ScanStartOffsetIterated(table: array<Page>, index: nat, half: nat, max: nat, ghost offsets: seq<nat>)
    returns (r: nat)
    requires Parameters(half, max) && max >= 3 && Stores(table[..], offsets, half, max)
    requires index < table.Length && !Free(table[index]) && table[index].sso == max
    ensures |offsets| == table.Length && r == offsets[index]
  {
    hide Stores, Aligned, Encode, Parameters, OnTheWay, Lookback, CodeRead;
    ghost var pages, n: nat := table[..], 0;
    var tot: nat := 0;
    var offset := max;
    StoredCode(pages, offsets, half, max, index);
    SetOut(pages, offsets, half, max, index);
    LookbackStart(pages, index);
    while offset == max
      invariant tot == Lookback(pages, index, n)
      invariant offset == max ==> tot <= index && OnTheWay(pages, offsets, half, index, tot)
      invariant offset != max ==> tot * (2 * half) == offsets[index]
      decreases index - tot, if offset == max then 1 else 0
    {
      offset := table[index - tot].sso;
      ReadHere(pages, index, n);
      LookbackStep(pages, index, n);
      if offset == max {
        GoOn(pages, offsets, half, max, index, tot);
        WayInside(pages, offsets, half, index, tot + max / 2);
      } else {
        Stop(pages, offsets, half, max, index, tot);
      }
      tot := tot + offset / 2;
      n := n + 1;
    }
    r := tot * (2 * half);
  }

  lemma ReadHere(pages: seq<Page>, index: nat, n: nat)
    requires 0 <= index - Lookback(pages, index, n) < |pages|
    ensures CodeRead(pages, index, n) == pages[index - Lookback(pages, index, n)].sso
  {
  }

  lemma WayInside(pages: seq<Page>, offsets: seq<nat>, half: nat, index: nat, tot: nat)
    requires OnTheWay(pages, offsets, half, index, tot)
    ensures tot <= index < |pages|
  {
  }

  lemma StoredCode(pages: seq<Page>, offsets: seq<nat>, half: nat, max: nat, i: nat)
    requires Stores(pages, offsets, half, max) && i < |pages|
    ensures |offsets| == |pages| && half > 0
    ensures if Free(pages[i]) then pages[i].sso != max && offsets[i] == Direct(half, pages[i].sso)
            else
              && pages[i].sso == Encode(half, max, offsets[i])
              && Storable(half, max, offsets[i])
              && offsets[i] <= i * (2 * half)
  {
  }

  /** The accessor returns the true offset of every page in use, clipped or not. */
  method PageScanStartOffset(table: array<Page>, index: nat, half: nat, max: nat, ghost offsets: seq<nat>)
    returns (r: nat)
    requires Parameters(half, max) && max >= 3 && Stores(table[..], offsets, half, max)
    requires index < table.Length
    ensures |offsets| == table.Length && r == offsets[index]
  {
    hide Stores, Direct, Encode, Storable;
    StoredCode(table[..], offsets, half, max, index);
    var code := table[index].sso;
    if code != max {
      r := Direct(half, code);
      if !Free(table[index]) { NotClipped(half, max, offsets[index]); }
    } else {
      r := ScanStartOffsetIterated(table, index, half, max, offsets);
    }
  }

  lemma NotClipped(half: nat, max: nat, offset: nat)
    requires Parameters(half, max) && Storable(half, max, offset) && Encode(half, max, offset) != max
    ensures Direct(half, Encode(half, max, offset)) == offset
  {
    hide Aligned, Scaled, Direct;
    DirectExactly(half, max, offset);
  }

  // The core file.

  function SingleBit(page: Page): (b: nat) {
    (page.flags / 16) % 2
  }

  function StoredPte(page: Page, offset: nat): (pte: CorePte) {
    CorePte(offset + page.flags % 8, page.wordsUsed + SingleBit(page))
  }

  lemma DirectDouble(half: nat, code: nat)
    requires half % 16 == 0
    ensures Direct(half, code) % 16 == 0
  {
    hide Direct;
    var k := code / 2;
    if code % 2 == 1 {
      DirectPages(half, k);
      AlignedDouble(half, k);
    } else {
      DirectEven(half, k);
    }
  }

  /** Offsets are multiples of a double word, so their low bits can hold the page type. */
  lemma OffsetHasRoom(pages: seq<Page>, offsets: seq<nat>, half: nat, max: nat, i: nat)
    requires Parameters(half, max) && Stores(pages, offsets, half, max) && i < |pages|
    ensures |offsets| == |pages| && offsets[i] % 16 == 0
  {
    hide Stores, Direct, Encode;
    StoredCode(pages, offsets, half, max, i);
    if Free(pages[i]) { DirectDouble(half, pages[i].sso); }
  }

  method StoreCorefilePtes(table: array<Page>, next: nat, ptes: array<CorePte>, half: nat, max: nat, ghost offsets: seq<nat>)
    requires Parameters(half, max) && max >= 3 && Stores(table[..], offsets, half, max)
    requires next <= table.Length && next <= ptes.Length
    requires forall i | 0 <= i < next :: table[i].wordsUsed % 2 == 0
    modifies ptes
    ensures |offsets| == table.Length
    ensures forall i | 0 <= i < next :: ptes[i] == StoredPte(table[i], offsets[i])
    ensures forall i | next <= i < ptes.Length :: ptes[i] == old(ptes[i])
  {
    hide Stores, Parameters;
    var i: nat := 0;
    while i < next
      invariant i <= next
      invariant i > 0 ==> |offsets| == table.Length
      invariant forall j | 0 <= j < i && |offsets| == table.Length :: ptes[j] == StoredPte(table[j], offsets[j])
      invariant forall j | i <= j < ptes.Length :: ptes[j] == old(ptes[j])
    {
      var word := PageScanStartOffset(table, i, half, max, offsets);
      OffsetHasRoom(table[..], offsets, half, max, i);
      assert word % 8 == 0;
      var used := table[i].wordsUsed;
      assert used % 2 == 0;
      ptes[i] := CorePte(word + table[i].flags % 8, used + SingleBit(table[i]));
      i := i + 1;
    }
    SameLength(table[..], offsets, half, max);
  }

  lemma SameLength(pages: seq<Page>, offsets: seq<nat>, half: nat, max: nat)
    requires Stores(pages, offsets, half, max)
    ensures |offsets| == |pages|
  {
  }

  function LoadedFlags(pte: CorePte): (flags: nat) {
    (if pte.wordsUsed % 2 == 1 then SingleObject else 0) + pte.sso % 8
  }

  function LoadedWords(pte: CorePte): (words: nat) {
    pte.wordsUsed - pte.wordsUsed % 2
  }

  function LoadedOffset(pte: CorePte): (offset: nat) {
    pte.sso - pte.sso % 8
  }

  function LoadedPage(blank: Page, pte: CorePte, half: nat, max: nat): (page: Page)
    requires half > 0
  {
    if LoadedFlags(pte) == FreePage then blank.(flags := FreePage)
    else Page(LoadedFlags(pte), LoadedWords(pte), Encode(half, max, LoadedOffset(pte)), CoreGeneration)
  }

  function BytesLoaded(ptes: seq<CorePte>): (bytes: nat) {
    if ptes == [] then 0 else
    var last := ptes[|ptes| - 1];
    BytesLoaded(ptes[..|ptes| - 1]) + if LoadedFlags(last) == FreePage then 0 else LoadedWords(last) * 8
  }

  /** What the loader asserts of the entry of a page in use. */
  predicate Loadable(pte: CorePte, half: nat, max: nat)
    requires half > 0
  {
    LoadedFlags(pte) != FreePage ==> LoadedWords(pte) > 0 && Storable(half, max, LoadedOffset(pte))
  }

  /** Fills the page table from the file, `chunk` entries to a read. */
  method LoadCorefilePtes(ptes: seq<CorePte>, chunk: nat, table: array<Page>, half: nat, max: nat)
    returns (bytes: nat)
    requires Parameters(half, max) && chunk > 0 && |ptes| <= table.Length
    requires forall i | 0 <= i < |ptes| :: Loadable(ptes[i], half, max)
    modifies table
    ensures forall i | 0 <= i < |ptes| :: table[i] == LoadedPage(old(table[i]), ptes[i], half, max)
    ensures forall i | |ptes| <= i < table.Length :: table[i] == old(table[i])
    ensures bytes == BytesLoaded(ptes)
  {
    hide Encode, Storable, LoadedFlags, LoadedWords, LoadedOffset;
    bytes := 0;
    var page: nat := 0;
    while page < |ptes|
      invariant page <= |ptes|
      invariant forall i | 0 <= i < page :: table[i] == LoadedPage(old(table[i]), ptes[i], half, max)
      invariant forall i | page <= i < table.Length :: table[i] == old(table[i])
      invariant bytes == BytesLoaded(ptes[..page])
    {
      var npages := if |ptes| - page < chunk then |ptes| - page else chunk;
      ghost var base := page;
      for i := 0 to npages
        invariant page == base + i
        invariant forall i | 0 <= i < page :: table[i] == LoadedPage(old(table[i]), ptes[i], half, max)
        invariant forall i | page <= i < table.Length :: table[i] == old(table[i])
        invariant bytes == BytesLoaded(ptes[..page])
      {
        assert ptes[..page + 1] == ptes[..page] + [ptes[page]];
        var size := LoadOne(ptes[page], table, page, half, max);
        bytes := bytes + size;
        page := page + 1;
      }
    }
    assert ptes[..page] == ptes;
  }

  /** The body of the decoding loop for one entry. */
  method LoadOne(entry: CorePte, table: array<Page>, page: nat, half: nat, max: nat)
    returns (size: nat)
    requires Parameters(half, max) && page < table.Length && Loadable(entry, half, max)
    modifies table
    ensures table[..] == old(table[..])[page := LoadedPage(old(table[page]), entry, half, max)]
    ensures size == if LoadedFlags(entry) == FreePage then 0 else LoadedWords(entry) * 8
  {
    var pte := entry;
    var flags := (if pte.wordsUsed % 2 == 1 then SingleObject else 0) + pte.sso % 8;
    table[page] := table[page].(flags := flags);
    pte := pte.(wordsUsed := pte.wordsUsed - pte.wordsUsed % 2);
    if flags == FreePage {
      return 0;
    }
    table[page] := table[page].(wordsUsed := pte.wordsUsed);
    SetPageScanStartOffset(table, page, pte.sso - pte.sso % 8, half, max);
    table[page] := table[page].(gen := CoreGeneration);
    size := pte.wordsUsed * 8;
  }

  // Saving and loading.

  /** A page fit to be saved: no open region or thread flag, whole double words, free means empty. */
  predicate Closed(page: Page) {
    && page.flags < 32 && (page.flags / 8) % 2 == 0
    && page.wordsUsed % 2 == 0
    && (Free(page) <==> page.wordsUsed == 0)
  }

  lemma LowPart(d: nat, q: nat, r: nat)
    requires r < d && (d == 2 || d == 8)
    ensures (q * d + r) % d == r && (q * d + r) / d == q
  {
  }

  lemma FieldsSurvive(page: Page, offset: nat)
    requires page.wordsUsed % 2 == 0 && offset % 16 == 0
    ensures StoredPte(page, offset).sso % 8 == page.flags % 8
    ensures StoredPte(page, offset).wordsUsed % 2 == SingleBit(page)
  {
    LowPart(8, 2 * (offset / 16), page.flags % 8);
    LowPart(2, page.wordsUsed / 2, SingleBit(page));
  }

  /** The type byte survives exactly when it has no flag but the type and the single-object bit. */
  lemma FlagsSurvive(page: Page, offset: nat)
    requires page.wordsUsed % 2 == 0 && offset % 16 == 0
    ensures LoadedFlags(StoredPte(page, offset)) == page.flags
       <==> page.flags < 32 && (page.flags / 8) % 2 == 0
  {
    FieldsSurvive(page, offset);
    FlagBits(page.flags);
  }

  lemma FlagBits(flags: nat)
    ensures flags == ((flags / 16) % 2) * 16 + flags % 8 <==> flags < 32 && (flags / 8) % 2 == 0
  {
    var f, b := flags % 8, flags / 8;
    assert flags == 8 * b + f && flags / 16 == b / 2;
    assert flags < 32 <==> b < 4;
  }

  function TotalWords(pages: seq<Page>): (n: nat) {
    if pages == [] then 0 else TotalWords(pages[..|pages| - 1]) + pages[|pages| - 1].wordsUsed
  }

  lemma PageSurvives(page: Page, offset: nat)
    requires Closed(page) && offset % 16 == 0
    ensures LoadedFlags(StoredPte(page, offset)) == page.flags
    ensures LoadedWords(StoredPte(page, offset)) == page.wordsUsed
    ensures LoadedOffset(StoredPte(page, offset)) == offset
  {
    hide SingleBit;
    FlagsSurvive(page, offset);
    FieldsSurvive(page, offset);
  }

  predicate Saved(pages: seq<Page>, offsets: seq<nat>, ptes: seq<CorePte>) {
    && |pages| == |offsets| == |ptes|
    && forall i | 0 <= i < |pages| ::
         Closed(pages[i]) && offsets[i] % 16 == 0 && ptes[i] == StoredPte(pages[i], offsets[i])
  }

  lemma {:induction false} BytesSurvive(pages: seq<Page>, offsets: seq<nat>, ptes: seq<CorePte>)
    requires Saved(pages, offsets, ptes)
    ensures BytesLoaded(ptes) == TotalWords(pages) * 8
  {
    if pages != [] {
      var last := |pages| - 1;
      BytesSurvive(pages[..last], offsets[..last], ptes[..last]);
      PageSurvives(pages[last], offsets[last]);
    }
  }

  /** The offsets a loaded table holds: those saved, and 0 for free pages. */
  function Kept(pages: seq<Page>, offsets: seq<nat>): (kept: seq<nat>)
    requires |pages| == |offsets|
    ensures |kept| == |pages|
    ensures forall i | 0 <= i < |pages| :: kept[i] == if Free(pages[i]) then 0 else offsets[i]
  {
    seq(|pages|, i requires 0 <= i < |pages| => if Free(pages[i]) then 0 else offsets[i])
  }

  predicate Reloaded(ptes: seq<CorePte>, loaded: seq<Page>, half: nat, max: nat)
    requires half > 0
  {
    && |loaded| == |ptes|
    && forall i | 0 <= i < |ptes| :: loaded[i] == LoadedPage(Page(FreePage, 0, 0, 0), ptes[i], half, max)
  }

  /**
   * Saving a closed page table and loading it into a zeroed one keeps the type, the
   * single-object flag, the words used and, through the accessor, the scan start of every page
   * in use; the loader accepts every entry and the bytes it counts are all those in use.
   */
  lemma SaveLoadRoundTrip(pages: seq<Page>, offsets: seq<nat>, ptes: seq<CorePte>, loaded: seq<Page>, half: nat, max: nat)
    requires Parameters(half, max) && Stores(pages, offsets, half, max)
    requires Saved(pages, offsets, ptes) && Reloaded(ptes, loaded, half, max)
    ensures forall i | 0 <= i < |pages| :: Loadable(ptes[i], half, max)
    ensures forall i | 0 <= i < |pages| ::
      && loaded[i].flags == pages[i].flags && loaded[i].wordsUsed == pages[i].wordsUsed
      && loaded[i].gen == if pages[i].flags == 0 then 0 else 6
    ensures Stores(loaded, Kept(pages, offsets), half, max)
    ensures BytesLoaded(ptes) == TotalWords(pages) * 8
  {
    hide Stores, Encode, Storable, Chain, Aligned, Closed, StoredPte, LoadedFlags, LoadedWords, LoadedOffset, BytesLoaded, TotalWords;
    BytesSurvive(pages, offsets, ptes);
    forall i: nat | i < |pages|
      ensures Loadable(ptes[i], half, max)
      ensures loaded[i].flags == pages[i].flags && loaded[i].wordsUsed == pages[i].wordsUsed
      ensures loaded[i].gen == if pages[i].flags == 0 then 0 else 6
      ensures if Free(pages[i]) then loaded[i].sso == 0 else loaded[i].sso == pages[i].sso
    {
      StoredCode(pages, offsets, half, max, i);
      PageSurvives(pages[i], offsets[i]);
      ClosedWords(pages[i]);
    }
    StoresAgain(pages, offsets, loaded, half, max);
  }

  lemma ClosedWords(page: Page)
    requires Closed(page)
    ensures Free(page) <==> page.wordsUsed == 0
  {
  }

  lemma StoresAgain(pages: seq<Page>, offsets: seq<nat>, loaded: seq<Page>, half: nat, max: nat)
    requires Parameters(half, max) && Stores(pages, offsets, half, max) && |loaded| == |pages| == |offsets|
    requires forall i | 0 <= i < |pages| ::
      loaded[i].flags == pages[i].flags && loaded[i].sso == if Free(pages[i]) then 0 else pages[i].sso
    ensures Stores(loaded, Kept(pages, offsets), half, max)
  {
    hide Encode, Storable, Aligned;
    var kept := Kept(pages, offsets);
    forall i: nat | i < |pages| && !Free(pages[i]) && Chain(pages, offsets, half, i)
      ensures Chain(loaded, kept, half, i)
    {
    }
  }
}
