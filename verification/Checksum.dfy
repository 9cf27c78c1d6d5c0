/** The module checksum of creatwth.cpp and the word that compensates for a header edit. */
module Checksum {
  import opened Bytes

  const PAGE_SIZE := 4096

  /** Subtraction of checksum words with the end-around borrow. */
  function SumMinus(sum: word, minus: word): (r: word)
    ensures r == if sum >= minus then sum - minus else sum - minus + 0xFFFF
  {
    var borrowed := (sum - (if sum < minus then 1 else 0)) % 0x1_0000;
    (borrowed - minus) % 0x1_0000
  }

  function SumDone(partial: dword): word {
    (partial / 0x1_0000 + partial) % 0x1_0000
  }

  /** The exact sum of the little-endian words of `bs`. */
  function WordSum(bs: seq<byte>): nat
    requires |bs| % 2 == 0
  {
    if bs == [] then 0 else WordSum(bs[..|bs| - 2]) + U16At(bs, |bs| - 2)
  }

  /** End-around folding of an exact sum into one word. */
  function OnesFold(n: nat): (w: word)
    ensures w == 0 <==> n == 0
  {
    if n <= 0xFFFF then n else OnesFold(n - 0xFFFF)
  }

  /** Folding yields the representative modulo 0xFFFF. */
  lemma {:induction false} FoldCongruent(n: nat)
    ensures OnesFold(n) % 0xFFFF == n % 0xFFFF
  {
    if n > 0xFFFF {
      FoldCongruent(n - 0xFFFF);
      assert (n - 0xFFFF) % 0xFFFF == n % 0xFFFF;
    }
  }

  /** One carry fold after adding a word keeps the folded sum exact. */
  lemma {:induction false} FoldStep(n: nat, w: word)
    ensures var s := OnesFold(n) + w; s / 0x1_0000 + s % 0x1_0000 == OnesFold(n + w)
  {
    FoldAgain(n, w);
  }

  lemma {:induction false} FoldAgain(a: nat, b: nat)
    ensures OnesFold(OnesFold(a) + b) == OnesFold(a + b)
  {
    if a > 0xFFFF {
      FoldAgain(a - 0xFFFF, b);
    }
  }

  lemma {:induction false} WordSumAppend(a: seq<byte>, b: seq<byte>)
    requires |a| % 2 == 0 && |b| % 2 == 0
    ensures WordSum(a + b) == WordSum(a) + WordSum(b)
    decreases |b|
  {
    if b == [] {
      assert a + b == a;
    } else {
      var b' := b[..|b| - 2];
      assert (a + b)[..|a + b| - 2] == a + b';
      WordSumAppend(a, b');
    }
  }

  lemma {:induction false} WordStep(sum: word, bs: seq<byte>, i: nat)
    requires i % 2 == 0 && i + 2 <= |bs|
    ensures var s := OnesFold(sum + WordSum(bs[..i])) + U16At(bs[..i + 2], i);
            s / 0x1_0000 + s % 0x1_0000 == OnesFold(sum + WordSum(bs[..i + 2]))
  {
    hide OnesFold;
    FoldStep(sum + WordSum(bs[..i]), U16At(bs[..i + 2], i));
    assert bs[..i + 2][..i] == bs[..i];
  }

  lemma {:induction false} NoWords(sum: word)
    ensures OnesFold(sum + WordSum([])) == sum
  {
  }

  method SumData(dwSum: word, pbData: array<byte>) returns (sum: word)
    requires pbData.Length % 2 == 0
    ensures sum == OnesFold(dwSum + WordSum(pbData[..]))
  {
    hide WordSum, OnesFold, U16At;
    var partial: dword := dwSum;
    var i := 0;
    NoWords(dwSum);
    while i < pbData.Length
      invariant 0 <= i <= pbData.Length && i % 2 == 0
      invariant partial == OnesFold(dwSum + WordSum(pbData[..i]))
    {
      WordStep(dwSum, pbData[..], i);
      assert pbData[..][..i] == pbData[..i] && pbData[..][..i + 2] == pbData[..i + 2];
      partial := partial + U16At(pbData[..i + 2], i);
      partial := partial / 0x1_0000 + partial % 0x1_0000;
      i := i + 2;
    }
    assert pbData[..i] == pbData[..];
    sum := SumDone(partial);
  }

  /** What ReadProcessMemory answers for one page of the module. */
  datatype Page = Readable(bytes: seq<byte>) | Unreadable

  predicate ValidPages(pages: seq<Page>) {
    forall p :: p in pages && p.Readable? ==> |p.bytes| == PAGE_SIZE
  }

  predicate ValidRegions(regions: seq<seq<Page>>) {
    forall r :: r in regions ==> ValidPages(r)
  }

  /** The bytes of one region up to its first unreadable page. */
  function RegionBytes(pages: seq<Page>): (bs: seq<byte>)
    requires ValidPages(pages)
    ensures |bs| % 2 == 0
  {
    if pages == [] || pages[0].Unreadable? then [] else pages[0].bytes + RegionBytes(pages[1..])
  }

  /** Every byte of the module that the checksum reads, region after region. */
  function VisibleBytes(regions: seq<seq<Page>>): (bs: seq<byte>)
    requires ValidRegions(regions)
    ensures |bs| % 2 == 0
  {
    if regions == [] then [] else RegionBytes(regions[0]) + VisibleBytes(regions[1..])
  }

  lemma {:induction false} PageStep(sum: word, pages: seq<Page>)
    requires pages != [] && ValidPages(pages)
    ensures pages[0].Unreadable? ==> OnesFold(sum + WordSum(RegionBytes(pages))) == sum
    ensures pages[0].Readable? ==>
              OnesFold(sum + WordSum(RegionBytes(pages)))
              == OnesFold(OnesFold(sum + WordSum(pages[0].bytes)) + WordSum(RegionBytes(pages[1..])))
  {
    hide OnesFold, WordSum;
    NoWords(sum);
    if pages[0].Readable? {
      var here, rest := pages[0].bytes, RegionBytes(pages[1..]);
      assert WordSum(RegionBytes(pages)) == WordSum(here) + WordSum(rest) by {
        WordSumAppend(here, rest);
      }
      FoldAgain(sum + WordSum(here), WordSum(rest));
    }
  }

  method ChkSumRange(wSum: word, pages: seq<Page>) returns (sum: word)
    requires ValidPages(pages)
    ensures sum == OnesFold(wSum + WordSum(RegionBytes(pages)))
  {
    hide WordSum;
    sum := wSum;
    var rbPage := new byte[PAGE_SIZE];
    var n := 0;
    while n < |pages|
      invariant 0 <= n <= |pages|
      invariant OnesFold(sum + WordSum(RegionBytes(pages[n..]))) == OnesFold(wSum + WordSum(RegionBytes(pages)))
    {
      PageStep(sum, pages[n..]);
      if pages[n].Unreadable? {
        return;
      }
      forall i | 0 <= i < PAGE_SIZE {
        rbPage[i] := pages[n].bytes[i];
      }
      assert rbPage[..] == pages[n].bytes;
      sum := SumData(sum, rbPage);
      assert pages[n..][1..] == pages[n + 1..];
      n := n + 1;
    }
    NoWords(sum);
  }

  /** The folded sum that `regions` bring a running sum to. */
  ghost function Total(sum: word, regions: seq<seq<Page>>): word
    requires ValidRegions(regions)
  {
    OnesFold(sum + WordSum(VisibleBytes(regions)))
  }

  lemma {:induction false} RegionStep(sum: word, regions: seq<seq<Page>>)
    requires regions != [] && ValidRegions(regions)
    ensures Total(sum, regions) == Total(OnesFold(sum + WordSum(RegionBytes(regions[0]))), regions[1..])
  {
    hide OnesFold, WordSum, RegionBytes;
    var here, rest := RegionBytes(regions[0]), VisibleBytes(regions[1..]);
    assert WordSum(VisibleBytes(regions)) == WordSum(here) + WordSum(rest) by {
      WordSumAppend(here, rest);
    }
    FoldAgain(sum + WordSum(here), WordSum(rest));
  }

  /** The checksum with the optional header's own two CheckSum words subtracted. */
  function SumFinal(sum: word, checkLow: word, checkHigh: word): word {
    SumMinus(SumMinus(sum, checkLow), checkHigh)
  }

  method ComputeChkSum(regions: seq<seq<Page>>, checkLow: word, checkHigh: word) returns (sum: word)
    requires ValidRegions(regions)
    ensures sum == ModuleSum(VisibleBytes(regions), checkLow, checkHigh)
  {
    sum := 0;
    var n := 0;
    while n < |regions|
      invariant 0 <= n <= |regions|
      invariant Total(sum, regions[n..]) == Total(0, regions)
    {
      RegionStep(sum, regions[n..]);
      assert regions[n..][1..] == regions[n + 1..];
      sum := ChkSumRange(sum, regions[n]);
      n := n + 1;
    }
    sum := SumFinal(sum, checkLow, checkHigh);
  }

  /** The word written to e_res[0], which held zero while the module was summed the second time. */
  function Compensation(wBefore: word, wDuring: word): word {
    SumMinus(0, SumMinus(wDuring, wBefore))
  }

  lemma {:induction false} WordSumMiddle(a: seq<byte>, w: seq<byte>, b: seq<byte>)
    requires |a| % 2 == 0 && |b| % 2 == 0 && |w| == 2
    ensures WordSum(a + w + b) == WordSum(a) + U16At(w, 0) + WordSum(b)
  {
    WordSumAppend(a + w, b);
    WordSumAppend(a, w);
    assert w[..0] == [];
  }

  /** Storing word `x` over a zero word changes the exact word sum by `x`. */
  lemma {:induction false} PatchWord(bs: seq<byte>, at: nat, x: word)
    requires |bs| % 2 == 0 && at % 2 == 0 && at + 2 <= |bs| && U16At(bs, at) == 0
    ensures WordSum(Blit(bs, at, LE16(x))) == WordSum(bs) + x
  {
    var a, b := bs[..at], bs[at + 2..];
    WordSumMiddle(a, bs[at..at + 2], b);
    WordSumMiddle(a, LE16(x), b);
    assert bs == a + bs[at..at + 2] + b;
    assert Blit(bs, at, LE16(x)) == a + LE16(x) + b;
  }

  /** The checksum ComputeChkSum reports for a module whose visible bytes are `bs`. */
  function ModuleSum(bs: seq<byte>, lo: word, hi: word): word
    requires |bs| % 2 == 0
  {
    SumFinal(OnesFold(WordSum(bs)), lo, hi)
  }

  /** Of the folded sums before and during, one is zero and the other stands for zero too, but not as zero. */
  predicate ZerosDiffer(b: word, d: word) {
    (b == 0 && d != 0) || (b == 0xFFFF && d == 0)
  }

  /**
   * The word arithmetic of the compensation: with `b` and `d` the folded sums before and during, the folded sum
   * after adding the compensating word finishes at the checksum of before, unless the CheckSum field is zero and the
   * compensated sum is a zero of the other sign.
   */
  lemma {:induction false} CompensationWords(b: word, d: word, lo: word, hi: word)
    ensures var x := Compensation(SumFinal(b, lo, hi), SumFinal(d, lo, hi));
            SumFinal(OnesFold(d + x), lo, hi) == SumFinal(b, lo, hi) <==> lo != 0 || hi != 0 || !ZerosDiffer(b, d)
  {
    hide SumMinus, OnesFold;
    var f, e := SumFinal(b, lo, hi), SumFinal(d, lo, hi);
    var x := Compensation(f, e);
    CompensationIs(f, e);
    FoldOnce(d, x);
    FinalMinus(b, lo, hi);
    FinalMinus(d, lo, hi);
    FinalMinus(OnesFold(d + x), lo, hi);
  }

  lemma {:induction false} CompensationIs(f: word, e: word)
    ensures Compensation(f, e) == if e == f || f - e == 0xFFFF then 0 else if e > f then f - e + 0xFFFF else f - e
  {
    hide SumMinus;
  }

  /** Subtracting the two check words takes their folded sum away, and leaves no negative zero if they are not zero. */
  lemma {:induction false} FinalMinus(b: word, lo: word, hi: word)
    ensures SumFinal(b, lo, hi) == if lo == 0 && hi == 0 then b else SumMinus(b % 0xFFFF, OnesFold(lo + hi))
  {
    hide SumMinus, OnesFold;
    FoldOnce(lo, hi);
  }

  lemma {:induction false} FoldOnce(d: word, x: word)
    ensures OnesFold(d + x) == if d + x <= 0xFFFF then d + x else d + x - 0xFFFF
  {
  }

  /**
   * Let `before`, `during` and `after` be the bytes summed at the three calls, where `after` differs from `during`
   * only in the compensating word.  For any edit between the first two, the checksum comes back exactly unless the
   * CheckSum field is zero and the first two sums are zeros of different sign.
   */
  lemma {:induction false} CompensationExact(before: seq<byte>, during: seq<byte>, lo: word, hi: word)
    requires |before| % 2 == 0 && |during| % 2 == 0 && E_RES + 2 <= |during| && U16At(during, E_RES) == 0
    ensures var x := Compensation(ModuleSum(before, lo, hi), ModuleSum(during, lo, hi));
            ModuleSum(Blit(during, E_RES, LE16(x)), lo, hi) == ModuleSum(before, lo, hi)
            <==> lo != 0 || hi != 0 || !ZerosDiffer(OnesFold(WordSum(before)), OnesFold(WordSum(during)))
  {
    hide SumMinus;
    var x := Compensation(ModuleSum(before, lo, hi), ModuleSum(during, lo, hi));
    var after := Blit(during, E_RES, LE16(x));
    assert OnesFold(WordSum(after)) == OnesFold(OnesFold(WordSum(during)) + x) by {
      PatchWord(during, E_RES, x);
      FoldAgain(WordSum(during), x);
    }
    CompensationWords(OnesFold(WordSum(before)), OnesFold(WordSum(during)), lo, hi);
  }

  /** An image that starts with the DOS signature is never all zeros. */
  lemma {:induction false} SignatureNonZero(bs: seq<byte>)
    requires |bs| % 2 == 0 && |bs| >= 2 && U16At(bs, 0) != 0
    ensures WordSum(bs) != 0
  {
    assert bs == bs[..2] + bs[2..];
    WordSumAppend(bs[..2], bs[2..]);
    assert bs[..2][..0] == [];
    assert U16At(bs[..2], 0) == U16At(bs, 0);
  }

  const IMAGE_DOS_SIGNATURE: word := 0x5A4D

  /** Whether a module's first page can be read and starts with the DOS signature. */
  predicate Signed(regions: seq<seq<Page>>)
    requires ValidRegions(regions)
  {
    var bs := VisibleBytes(regions);
    |bs| >= PAGE_SIZE && U16At(bs, 0) == IMAGE_DOS_SIGNATURE
  }

  /**
   * The checksum part of UpdateImports: sum, let the headers change, sum again with e_res[0] cleared, and
   * store the difference.  For a module that carries the DOS signature throughout the two sums agree, however
   * the memory manager splits its pages into regions.
   */
  method RestoreChecksum(before: seq<seq<Page>>, during: seq<seq<Page>>, lo: word, hi: word)
    returns (wBefore: word, eRes0: word)
    requires ValidRegions(before) && ValidRegions(during) && Signed(before) && Signed(during)
    requires U16At(VisibleBytes(during), E_RES) == 0
    ensures forall after | ValidRegions(after) && VisibleBytes(after) == Blit(VisibleBytes(during), E_RES, LE16(eRes0))
              :: ModuleSum(VisibleBytes(after), lo, hi) == wBefore
    ensures wBefore == ModuleSum(VisibleBytes(before), lo, hi)
  {
    hide VisibleBytes, ModuleSum, SumMinus, Blit, LE16;
    wBefore := ComputeChkSum(before, lo, hi);
    var wDuring := ComputeChkSum(during, lo, hi);
    eRes0 := SumMinus(0, SumMinus(wDuring, wBefore));
    SignedRestores(VisibleBytes(before), VisibleBytes(during), lo, hi);
  }

  lemma {:induction false} SignedRestores(before: seq<byte>, during: seq<byte>, lo: word, hi: word)
    requires |before| % 2 == 0 && |before| >= 2 && U16At(before, 0) != 0
    requires |during| % 2 == 0 && |during| >= E_RES + 2 && U16At(during, 0) != 0 && U16At(during, E_RES) == 0
    ensures var x := Compensation(ModuleSum(before, lo, hi), ModuleSum(during, lo, hi));
            ModuleSum(Blit(during, E_RES, LE16(x)), lo, hi) == ModuleSum(before, lo, hi)
  {
    hide SumMinus, WordSum, Blit, LE16, U16At, ModuleSum;
    SignatureNonZero(before);
    SignatureNonZero(during);
    CompensationExact(before, during, lo, hi);
  }
}
