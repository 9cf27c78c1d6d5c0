/** Where Write puts the .detour section, and when Read finds it there. */
module ImagePlacement {
  import opened Bytes
  import opened ImageOutput
  import opened ImportReader
  import opened ImportRoundTrip

  /** The first multiple of `unit` behind all of the `ends`, of `start` and of zero. */
  predicate FirstBehind(next: nat, unit: nat, start: nat, ends: seq<nat>)
    requires unit > 0
  {
    && Align(start, unit) <= next && (forall k :: 0 <= k < |ends| ==> Align(ends[k], unit) <= next)
    && (next == Align(start, unit) || exists k :: 0 <= k < |ends| && next == Align(ends[k], unit))
  }

  function VirtualEnds(ss: seq<SectionHeader>, cbVirtual: seq<dword>): (r: seq<nat>)
    requires |cbVirtual| == |ss|
    ensures |r| == |ss| && forall k :: 0 <= k < |ss| ==> r[k] == ss[k].va + cbVirtual[k]
  {
    seq(|ss|, k requires 0 <= k < |ss| => ss[k].va + cbVirtual[k])
  }

  function RawEnds(ss: seq<SectionHeader>): (r: seq<nat>)
    ensures |r| == |ss| && forall k :: 0 <= k < |ss| ==> r[k] == ss[k].pRaw + ss[k].cbRaw
  {
    seq(|ss|, k requires 0 <= k < |ss| => ss[k].pRaw + ss[k].cbRaw)
  }

  /** What is aligned stays, and whatever it covers is no longer aligned to something behind it. */
  lemma {:induction false} AlignBelow(a: nat, b: nat, unit: nat)
    requires unit > 0 && a <= Align(b, unit)
    ensures Align(a, unit) <= Align(b, unit) && Align(Align(b, unit), unit) == Align(b, unit)
  {
    var p := (b + (unit - 1)) / unit;
    AlignIsLeast(a, unit, p);
    AlignIsLeast(Align(b, unit), unit, p);
    AlignBounds(Align(b, unit), unit);
  }

  lemma {:induction false} AlignMonotone(a: nat, b: nat, unit: nat)
    requires unit > 0 && a <= b
    ensures Align(a, unit) <= Align(b, unit)
  {
    AlignBounds(b, unit);
    AlignBelow(a, b, unit);
  }

  /** One more section: the new cursor is behind it too. */
  lemma {:induction false} BehindNext(next: nat, unit: nat, start: nat, ends: seq<nat>, end: nat)
    requires unit > 0 && FirstBehind(next, unit, start, ends)
    ensures FirstBehind(Align(if end > next then end else next, unit), unit, start, ends + [end])
  {
    hide Align;
    var more := ends + [end];
    assert forall k :: 0 <= k < |ends| ==> more[k] == ends[k];
    assert more[|ends|] == end;
    var b := if next == Align(start, unit) then start
             else var k :| 0 <= k < |ends| && next == Align(ends[k], unit); ends[k];
    AlignBelow(if end > next then next else end, b, unit);
    if end > next {
      AlignMonotone(next, end, unit);
    }
  }

  /** The loop that copies the sections, as far as it moves the cursors m_nNextFileAddr and m_nNextVirtAddr. */
  method CopySections(ss: seq<SectionHeader>, cbVirtual: seq<dword>, cbHeaders: nat, fileAlignment: nat,
                      sectionAlignment: nat)
    returns (nNextFileAddr: nat, nNextVirtAddr: nat)
    requires |cbVirtual| == |ss| && fileAlignment > 0 && sectionAlignment > 0
    ensures FirstBehind(nNextFileAddr, fileAlignment, cbHeaders, RawEnds(ss))
    ensures FirstBehind(nNextVirtAddr, sectionAlignment, 0, VirtualEnds(ss, cbVirtual))
  {
    hide FirstBehind, Align;
    ghost var raw, virt := RawEnds(ss), VirtualEnds(ss, cbVirtual);
    nNextFileAddr, nNextVirtAddr := Align(cbHeaders, fileAlignment), Align(0, sectionAlignment);
    NothingBefore(cbHeaders, fileAlignment);
    NothingBefore(0, sectionAlignment);
    var n := 0;
    while n < |ss|
      invariant n <= |ss|
      invariant FirstBehind(nNextFileAddr, fileAlignment, cbHeaders, raw[..n])
      invariant FirstBehind(nNextVirtAddr, sectionAlignment, 0, virt[..n])
    {
      BehindNext(nNextFileAddr, fileAlignment, cbHeaders, raw[..n], raw[n]);
      BehindNext(nNextVirtAddr, sectionAlignment, 0, virt[..n], virt[n]);
      assert raw[..n + 1] == raw[..n] + [raw[n]] && virt[..n + 1] == virt[..n] + [virt[n]];
      var fileEnd, virtEnd := ss[n].pRaw + ss[n].cbRaw, ss[n].va + cbVirtual[n];
      nNextFileAddr := Align(if fileEnd > nNextFileAddr then fileEnd else nNextFileAddr, fileAlignment);
      nNextVirtAddr := Align(if virtEnd > nNextVirtAddr then virtEnd else nNextVirtAddr, sectionAlignment);
      n := n + 1;
    }
    assert raw[..n] == raw && virt[..n] == virt;
  }

  lemma {:induction false} NothingBefore(start: nat, unit: nat)
    requires unit > 0
    ensures FirstBehind(Align(start, unit), unit, start, [])
  {
  }

  /** Where Write puts a section that is inserted. */
  predicate PlacedBehind(h: SectionHeader, ss: seq<SectionHeader>, cbVirtual: seq<dword>, cbHeaders: nat,
                         fileAlignment: nat, sectionAlignment: nat)
    requires |cbVirtual| == |ss| && fileAlignment > 0 && sectionAlignment > 0
  {
    && FirstBehind(h.pRaw, fileAlignment, cbHeaders, RawEnds(ss))
    && FirstBehind(h.va, sectionAlignment, 0, VirtualEnds(ss, cbVirtual))
  }

  lemma {:induction false} PlacedFacts(h: SectionHeader, ss: seq<SectionHeader>, cbVirtual: seq<dword>, cbHeaders: nat,
                                       fileAlignment: nat, sectionAlignment: nat)
    requires |cbVirtual| == |ss| && fileAlignment > 0 && sectionAlignment > 0
    requires PlacedBehind(h, ss, cbVirtual, cbHeaders, fileAlignment, sectionAlignment)
    ensures forall k :: 0 <= k < |ss| ==>
              && ss[k].va <= ss[k].va + cbVirtual[k] <= Align(ss[k].va + cbVirtual[k], sectionAlignment) <= h.va
              && ss[k].pRaw + ss[k].cbRaw <= h.pRaw
  {
    hide Align;
    var raw, virt := RawEnds(ss), VirtualEnds(ss, cbVirtual);
    forall k | 0 <= k < |ss|
      ensures && ss[k].va + cbVirtual[k] <= Align(ss[k].va + cbVirtual[k], sectionAlignment) <= h.va
              && ss[k].pRaw + ss[k].cbRaw <= h.pRaw
    {
      AlignBounds(raw[k], fileAlignment);
      AlignBounds(virt[k], sectionAlignment);
    }
  }

  /**
   * Read finds the new section at its addresses if and only if the raw data of no other section, which may be longer
   * than its virtual size, reaches past the address Write chose: the address map goes by raw sizes.
   */
  lemma {:induction false} NewSectionMapped(ss: seq<SectionHeader>, h: SectionHeader, cbVirtual: seq<dword>,
                                            cbHeaders: nat, fileAlignment: nat, sectionAlignment: nat)
    requires |cbVirtual| == |ss| && fileAlignment > 0 && sectionAlignment > 0
    requires PlacedBehind(h, ss, cbVirtual, cbHeaders, fileAlignment, sectionAlignment)
    requires 0 < h.va && 0 < h.cbRaw && h.va + h.cbRaw < 0x8000_0000
    ensures Mapped(ss + [h], Place(h.va, h.pRaw, h.cbRaw))
            <==> forall k :: 0 <= k < |ss| ==> ss[k].va + ss[k].cbRaw <= h.va
  {
    hide PlacedBehind;
    PlacedFacts(h, ss, cbVirtual, cbHeaders, fileAlignment, sectionAlignment);
    if forall k :: 0 <= k < |ss| ==> ss[k].va + ss[k].cbRaw <= h.va {
      LastMapped(ss, h);
    } else {
      var k :| 0 <= k < |ss| && ss[k].va + ss[k].cbRaw > h.va;
      HiddenBy(ss, h, k);
    }
  }

  /** So it is when no section's raw data is longer than its aligned virtual size. */
  lemma {:induction false} ShortSections(ss: seq<SectionHeader>, h: SectionHeader, cbVirtual: seq<dword>,
                                         cbHeaders: nat, fileAlignment: nat, sectionAlignment: nat)
    requires |cbVirtual| == |ss| && fileAlignment > 0 && sectionAlignment > 0
    requires PlacedBehind(h, ss, cbVirtual, cbHeaders, fileAlignment, sectionAlignment)
    requires 0 < h.va && 0 < h.cbRaw && h.va + h.cbRaw < 0x8000_0000
    requires forall k :: 0 <= k < |ss| ==> ss[k].va + ss[k].cbRaw <= Align(ss[k].va + cbVirtual[k], sectionAlignment)
    ensures Mapped(ss + [h], Place(h.va, h.pRaw, h.cbRaw))
  {
    hide PlacedBehind, Align, Mapped;
    PlacedFacts(h, ss, cbVirtual, cbHeaders, fileAlignment, sectionAlignment);
    NewSectionMapped(ss, h, cbVirtual, cbHeaders, fileAlignment, sectionAlignment);
  }

  lemma {:induction false} LastMapped(ss: seq<SectionHeader>, h: SectionHeader)
    requires 0 < h.va && h.va + h.cbRaw < 0x8000_0000
    requires forall k :: 0 <= k < |ss| ==> ss[k].va + ss[k].cbRaw <= h.va
    ensures Mapped(ss + [h], Place(h.va, h.pRaw, h.cbRaw))
  {
    if ss == [] {
      assert ss + [h] == [h];
    } else {
      LastMapped(ss[1..], h);
      assert (ss + [h])[1..] == ss[1..] + [h];
    }
  }

  /** The first of the covering sections decides, and its raw data lie in front of the new section's. */
  lemma {:induction false} HiddenBy(ss: seq<SectionHeader>, h: SectionHeader, k: nat)
    requires 0 < h.va && k < |ss| && ss[k].va <= h.va < ss[k].va + ss[k].cbRaw && 0 < h.cbRaw
    requires forall j :: 0 <= j < |ss| ==> ss[j].pRaw + ss[j].cbRaw <= h.pRaw
    ensures RvaToVa(ss + [h], h.va).Some? && RvaToVa(ss + [h], h.va).value < h.pRaw
    ensures !Mapped(ss + [h], Place(h.va, h.pRaw, h.cbRaw))
  {
    HiddenAt(ss, h, k);
    assert RvaToVa(ss + [h], h.va) != Some(h.pRaw + h.va - h.va);
  }

  lemma {:induction false} HiddenAt(ss: seq<SectionHeader>, h: SectionHeader, k: nat)
    requires 0 < h.va && k < |ss| && ss[k].va <= h.va < ss[k].va + ss[k].cbRaw
    requires forall j :: 0 <= j < |ss| ==> ss[j].pRaw + ss[j].cbRaw <= h.pRaw
    ensures RvaToVa(ss + [h], h.va).Some? && RvaToVa(ss + [h], h.va).value < h.pRaw
    decreases k
  {
    assert (ss + [h])[0] == ss[0] && (ss + [h])[1..] == ss[1..] + [h];
    if !(ss[0].va <= h.va < ss[0].va + ss[0].cbRaw) {
      HiddenAt(ss[1..], h, k - 1);
    }
  }

  /** One: 0x3000 bytes of raw data for a virtual size of 1 hide a section that is put at the next page. */
  lemma {:induction false} HiddenSection()
    ensures var ss, h := [SectionHeader(0x1000, 0x3000, 0x400)], SectionHeader(0x2000, 0x200, 0x3400);
            PlacedBehind(h, ss, [1], 0x400, 0x200, 0x1000) && !Mapped(ss + [h], Place(0x2000, 0x3400, 0x200))
  {
    var ss, h := [SectionHeader(0x1000, 0x3000, 0x400)], SectionHeader(0x2000, 0x200, 0x3400);
    assert RawEnds(ss)[0] == 0x3400 && VirtualEnds(ss, [1])[0] == 0x1001;
    assert Align(0x3400, 0x200) == 0x3400 && Align(0x1001, 0x1000) == 0x2000 && Align(0x400, 0x200) == 0x400;
    HiddenBy(ss, h, 0);
  }
}
