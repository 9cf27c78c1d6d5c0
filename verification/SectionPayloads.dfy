/** The payloads of a rewritten image, seen by the reader of loaded modules. */
module SectionPayloads {
  import opened Bytes
  import opened PayloadRecords
  import opened ImportLayout
  import opened ImageOutput
  import opened ImageWriter
  import opened ImportReader
  import opened ImportRoundTrip
  import PayloadModule

  /** CImageData::Find and, once the section is loaded, DetourFindPayload find the same bytes for every GUID. */
  lemma {:induction false} SameDataFound(m: seq<byte>, p: nat, buf: seq<byte>, h: SectionHeader, fs: seq<ImportFile>,
                                         prePE: seq<byte>, rs: seq<Record>, others: seq<byte>, g: Guid)
    requires Written(buf, fs, prePE, EncodeAll(rs), others, h) && Stands(m, p, buf[..h.cbRaw]) && |others| == 48
    ensures PayloadModule.Readable(m, p, 16)
    ensures var data, w := FindFirst(rs, g), PayloadModule.WalkModule(m, p, g, true);
            if data.None? then w == PayloadModule.Ended
            else
              && w.Found? && w.cbData == |data.value| && w.pb + w.cbData <= |m|
              && m[w.pb..w.pb + w.cbData] == data.value
  {
    hide Written, Stands, EncodeAll, FindFirst, PayloadModule.WalkModule, PayloadModule.Payloads;
    ReadersAgree(m, p, buf, h, fs, prePE, rs, others);
    PayloadModule.PayloadsFound(m, p, g);
  }

  /**
   * The records kept by CImageData, written into a .detour section that is then loaded at `p`, are what
   * DetourFindPayload walks through.
   */
  lemma {:induction false} ReadersAgree(m: seq<byte>, p: nat, buf: seq<byte>, h: SectionHeader, fs: seq<ImportFile>,
                                        prePE: seq<byte>, rs: seq<Record>, others: seq<byte>)
    requires Written(buf, fs, prePE, EncodeAll(rs), others, h) && Stands(m, p, buf[..h.cbRaw]) && |others| == 48
    ensures PayloadModule.PayloadsTile(m, p) && PayloadModule.Payloads(m, p) == rs
    ensures U32At(m, p) == PayloadModule.DETOUR_HEADER_SIZE && U32At(m, p + 4) == PayloadModule.DETOUR_SIGNATURE
    ensures PayloadModule.DefaultOffset(m, Some(p)) == m
  {
    hide Stands, Written, EncodeAll, Decode, U32At, LE32, LayoutFor, SectionHead;
    var data := EncodeAll(rs);
    var l := LayoutFor(fs, |prePE|, |data|);
    DataFollowsHead(fs, |prePE|, |data|);
    BlocksStand(m, p, buf, h, fs, prePE, data, others);
    HeadFields(m, p, l.data, l.data + |data|, others, prePE);
    StandsIs(m, p + l.data, data);
    OneDecoding(rs);
  }

  /** The header and the payloads where the section is loaded. */
  lemma {:induction false} BlocksStand(m: seq<byte>, p: nat, buf: seq<byte>, h: SectionHeader, fs: seq<ImportFile>,
                                       prePE: seq<byte>, data: seq<byte>, others: seq<byte>)
    requires Written(buf, fs, prePE, data, others, h) && Stands(m, p, buf[..h.cbRaw]) && |others| == 48
    ensures var l := LayoutFor(fs, |prePE|, |data|);
            && l.data + |data| < ADDRESS_SPACE
            && Stands(m, p, SectionHead(l.data, l.data + |data|, others) + prePE) && Stands(m, p + l.data, data)
  {
    hide Stands, Emitted, SectionImage, LE32, LayoutFor, RoomFor;
    var l := LayoutFor(fs, |prePE|, |data|);
    DataFollowsHead(fs, |prePE|, |data|);
    var e := SectionImage(fs, prePE, data, others, l, RoomFor(fs), h.va);
    SectionParts(fs, prePE, data, others, l, h.va);
    EmittedParts(buf, l, RoomFor(fs), e);
    StandsIn(m, p, buf, h.cbRaw, 0, e.head);
    StandsIn(m, p, buf, h.cbRaw, l.data, data);
  }

  lemma {:induction false} DataFollowsHead(fs: seq<ImportFile>, cbPre: nat, cbData: nat)
    ensures var l := LayoutFor(fs, cbPre, cbData); 64 + cbPre <= l.look <= l.data && l.data + cbData <= l.table <= l.end
  {
    hide Thunks, Texts;
    LayoutChain(cbPre, Thunks(fs), |Texts(fs)|, cbData, |fs| + 1);
  }

  lemma {:induction false} StandsIs(m: seq<byte>, at: nat, bs: seq<byte>)
    requires Stands(m, at, bs)
    ensures at + |bs| <= |m| && m[at..at + |bs|] == bs
  {
  }

  lemma {:induction false} OneDecoding(rs: seq<Record>)
    requires |EncodeAll(rs)| < ADDRESS_SPACE
    ensures Decode(EncodeAll(rs)) == Some(rs) && (EncodeAll(rs) == [] ==> rs == [])
  {
    DecodeEncoded(rs);
  }

  lemma {:induction false} HeadFields(m: seq<byte>, p: nat, nDataOffset: dword, cbDataSize: dword, others: seq<byte>,
                                      prePE: seq<byte>)
    requires Stands(m, p, SectionHead(nDataOffset, cbDataSize, others) + prePE)
    ensures p + 16 <= |m| && U32At(m, p) == 64 && U32At(m, p + 4) == 0x0072_7444
    ensures U32At(m, p + 8) == nDataOffset && U32At(m, p + 12) == cbDataSize
  {
    hide LE32, Stands, U32At;
    var h := SectionHead(nDataOffset, cbDataSize, others);
    StandsSplit(m, p, h, prePE);
    var a, b, c, d := LE32(64), LE32(0x0072_7444), LE32(nDataOffset), LE32(cbDataSize);
    StandsSplit(m, p, a + b + c + d, others);
    StandsSplit(m, p, a + b + c, d);
    StandsSplit(m, p, a + b, c);
    StandsSplit(m, p, a, b);
    ReadsWord(m, p, 64);
    ReadsWord(m, p + 4, 0x0072_7444);
    ReadsWord(m, p + 8, nDataOffset);
    ReadsWord(m, p + 12, cbDataSize);
    StandsLength(m, p + 12, d);
  }
}
