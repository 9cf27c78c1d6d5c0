/** CImageData of image.cpp: the payload records of an image, kept in one growing byte buffer. */
module PayloadStore {
  import opened Bytes
  import opened PayloadRecords

  function QuadAlign(a: nat): (r: nat)
    ensures r % 8 == 0 && a <= r < a + 8
  {
    (a + 7) / 8 * 8
  }

  lemma {:induction false} PaddedLength(data: seq<byte>)
    ensures |Padded(data)| == QuadAlign(|data|)
  {
  }

  class CImageData {
    var m_pbData: array?<byte>
    var m_cbData: nat
    var m_cbAlloc: nat
    ghost var records: seq<Record>

    ghost predicate Valid()
      reads this, m_pbData
    {
      && m_cbData + RECORD_SIZE < ADDRESS_SPACE
      && m_cbData == |EncodeAll(records)|
      && (m_pbData == null ==> m_cbData == m_cbAlloc == 0)
      && (m_pbData != null ==> m_cbData <= m_pbData.Length && m_pbData[..m_cbData] == EncodeAll(records)
                               && (m_cbAlloc == 0 || m_cbAlloc == m_pbData.Length))
    }

    /** A store on bytes that belong to a mapped image. */
    constructor (pbData: array?<byte>, cbData: nat)
      requires if pbData == null then cbData == 0 else cbData <= pbData.Length && Decode(pbData[..cbData]).Some?
      requires cbData + RECORD_SIZE < ADDRESS_SPACE
      ensures Valid() && m_pbData == pbData
      ensures if pbData == null then records == [] else Decode(pbData[..cbData]) == Some(records)
    {
      m_pbData, m_cbData, m_cbAlloc := pbData, cbData, 0;
      records := if pbData == null then [] else Decode(pbData[..cbData]).value;
      new;
      if pbData != null {
        EncodeDecoded(pbData[..cbData]);
      }
    }

    /** The records tile the buffer: IsValid answers TRUE in every state. */
    method IsValid() returns (ok: bool)
      requires Valid()
      ensures ok
    {
      hide EncodeAll;
      if m_pbData == null {
        return true;
      }
      var pbIter := 0;
      ghost var k := 0;
      OffsetEnds(records);
      while pbIter < m_cbData
        invariant k <= |records| && pbIter == Offset(records, k) <= m_cbData
        decreases m_cbData - pbIter
      {
        AtRecord(k);
        var cbBytes := ReadU32(m_pbData, pbIter);
        var nReserved := ReadU32(m_pbData, pbIter + 4);
        if cbBytes < RECORD_SIZE {
          return false;
        }
        if nReserved != 0 {
          return false;
        }
        pbIter := pbIter + cbBytes;
        k := k + 1;
      }
      return true;
    }

    /** What the buffer holds at the start of record `k`; before its end there is such a record. */
    lemma {:induction false} AtRecord(k: nat)
      requires Valid() && k <= |records| && Offset(records, k) < m_cbData
      ensures k < |records| && m_pbData != null && HoldsRecord(m_pbData[..], Offset(records, k), records[k])
      ensures Offset(records, k + 1) == Offset(records, k) + RECORD_SIZE + |records[k].data| <= m_cbData
    {
      hide EncodeAll, HoldsRecord;
      OffsetEnds(records);
      RecordAt(records, k);
      HoldsIn(m_pbData[..], m_cbData, Offset(records, k), records[k]);
    }

    /** The record at the iterator, which moves on to the next one; nothing at the end. */
    method Enumerate(nIterator: Option<nat>, ghost k: nat)
      returns (pb: Option<nat>, guid: Guid, cbData: nat, nNext: Option<nat>)
      requires Valid() && k <= |records| && (nIterator.Some? ==> nIterator.value == Offset(records, k))
      ensures pb.Some? <==> nIterator.Some? && k < |records|
      ensures pb.None? ==> cbData == 0 && guid == seq(16, _ => 0) && nNext == nIterator
      ensures pb.Some? ==> guid == records[k].guid && Holds(pb.value, records[k].data) && cbData == |records[k].data|
      ensures pb.Some? ==> nNext == Some(Offset(records, k + 1))
    {
      hide EncodeAll;
      OffsetEnds(records);
      if k < |records| {
        SplitAt(records, k);
      }
      if nIterator.None? || m_cbData < nIterator.value + RECORD_SIZE {
        return None, seq(16, _ => 0), 0, nIterator;
      }
      var pRecord := nIterator.value;
      AtRecord(k);
      guid := m_pbData[pRecord + 8..pRecord + RECORD_SIZE];
      var cbBytes := ReadU32(m_pbData, pRecord);
      cbData := cbBytes - RECORD_SIZE;
      nNext := Some(pRecord + cbBytes);
      pb := Some(pRecord + RECORD_SIZE);
    }

    /** `data` stands at offset `pb` of the buffer, inside the bytes in use. */
    ghost predicate Holds(pb: nat, data: seq<byte>)
      reads this, m_pbData
    {
      m_pbData != null && pb + |data| <= m_cbData <= m_pbData.Length && m_pbData[pb..pb + |data|] == data
    }

    /** The data of the first record with this GUID. */
    method Find(rguid: Guid) returns (pb: Option<nat>, cbData: nat)
      requires Valid()
      ensures match FindFirst(records, rguid)
              case None => pb == None && cbData == 0
              case Some(data) => pb == Some(Offset(records, Index(records, rguid)) + RECORD_SIZE)
                                 && cbData == |data| && Holds(pb.value, data)
    {
      hide EncodeAll;
      var cbBytes, nOffset := RECORD_SIZE, 0;
      ghost var k := 0;
      OffsetEnds(records);
      while nOffset < m_cbData
        invariant k <= |records| && nOffset == Offset(records, k)
        invariant forall j :: 0 <= j < k ==> records[j].guid != rguid
        decreases |records| - k
      {
        AtRecord(k);
        cbBytes := ReadU32(m_pbData, nOffset);
        if cbBytes > m_cbData {
          break;
        }
        if cbBytes < RECORD_SIZE {
          k, nOffset := k + 1, nOffset + cbBytes;
          continue;
        }
        if m_pbData[nOffset + 8..nOffset + RECORD_SIZE] == rguid {
          return Some(nOffset + RECORD_SIZE), cbBytes - RECORD_SIZE;
        }
        k, nOffset := k + 1, nOffset + cbBytes;
      }
      AllSeen(k);
      return None, 0;
    }

    lemma {:induction false} AllSeen(k: nat)
      requires Valid() && k <= |records| && Offset(records, k) >= m_cbData
      ensures k == |records|
    {
      hide EncodeAll;
      if k < |records| {
        SplitAt(records, k);
      }
    }

    /**
     * Remove the first record with this GUID; the records behind it move up.  Without any behind it no byte is
     * written, so the buffer may be a view that cannot be.
     */
    method Delete(rguid: Guid) returns (ok: bool)
      requires Valid()
      modifies this, m_pbData
      ensures Valid() && m_pbData == old(m_pbData) && m_cbAlloc == old(m_cbAlloc)
      ensures ok <==> FindFirst(old(records), rguid).Some?
      ensures records == DeleteFirst(old(records), rguid) && m_cbData <= old(m_cbData)
      ensures m_pbData != null && Index(old(records), rguid) + 1 >= |old(records)| ==>
                m_pbData[..] == old(if m_pbData == null then [] else m_pbData[..])
    {
      hide EncodeAll, Index, Offset, DeleteFirst, FindFirst, Holds;
      var pbFound, cbFound := Find(rguid);
      NotThere(records, rguid);
      if pbFound.None? {
        return false;
      }
      DeletedBytes(records, rguid);
      LastRecord(records, rguid);
      RemoveBytes(pbFound.value - RECORD_SIZE, cbFound + RECORD_SIZE, DeleteFirst(records, rguid));
      return true;
    }

    /** Move the bytes behind the `cb` bytes at `pb` up to `pb`; `rest` are the records they and the front make up. */
    method RemoveBytes(pb: nat, cb: nat, ghost rest: seq<Record>)
      requires Valid() && m_pbData != null && pb + cb <= m_cbData
      requires EncodeAll(rest) == EncodeAll(records)[..pb] + EncodeAll(records)[pb + cb..]
      modifies this, m_pbData
      ensures Valid() && m_pbData == old(m_pbData) && m_cbAlloc == old(m_cbAlloc)
      ensures records == rest && m_cbData == old(m_cbData) - cb
      ensures pb + cb == old(m_cbData) ==> m_pbData[..] == old(m_pbData[..])
    {
      hide EncodeAll;
      ghost var was := m_pbData[..];
      var pbRest := pb + cb;
      var cbRest := m_cbData - pbRest;
      if cbRest != 0 {
        MoveMemory(m_pbData, pb, pbRest, cbRest);
      }
      CloseGap(was, m_pbData[..], m_cbData, pb, pbRest);
      m_cbData := m_cbData - cb;
      records := rest;
    }

    /** Make room for `cbData` bytes; `haveMemory` is whether a larger buffer can be had. */
    method SizeTo(cbData: nat, haveMemory: bool) returns (ok: bool)
      requires Valid() && m_cbData <= cbData
      modifies this
      ensures ok <==> cbData <= old(m_cbAlloc) || haveMemory
      ensures Valid() && records == old(records) && m_cbData == old(m_cbData)
      ensures m_pbData == old(m_pbData) || fresh(m_pbData)
      ensures ok && cbData > 0 ==> m_pbData != null && cbData <= m_cbAlloc
      ensures !ok ==> m_pbData == old(m_pbData)
    {
      hide EncodeAll;
      if cbData <= m_cbAlloc {
        return true;
      }
      if !haveMemory {
        return false;
      }
      var pbNew := new byte[cbData];
      if m_pbData != null {
        forall i | 0 <= i < m_cbData {
          pbNew[i] := m_pbData[i];
        }
        assert pbNew[..m_cbData] == m_pbData[..m_cbData];
      }
      m_pbData, m_cbAlloc := pbNew, cbData;
      return true;
    }

    /**
     * Replace the payload of a GUID by `cbData` bytes of `pbData`, or of zeros: the record goes to the end of the
     * buffer, padded to a multiple of eight.  When the buffer is too small and no memory is left, the old payload is
     * lost all the same.
     */
    method Set(rguid: Guid, pbData: Option<seq<byte>>, cbData: nat, haveMemory: bool) returns (pbDest: Option<nat>)
      requires Valid() && (pbData.Some? ==> cbData <= |pbData.value|)
      requires m_cbData + QuadAlign(cbData) + RECORD_SIZE + RECORD_SIZE < ADDRESS_SPACE
      modifies this, m_pbData
      ensures Valid() && (m_pbData == old(m_pbData) || fresh(m_pbData))
      ensures pbDest.None? <==>
                !haveMemory
                && |EncodeAll(DeleteFirst(old(records), rguid))| + QuadAlign(cbData) + RECORD_SIZE > old(m_cbAlloc)
      ensures pbDest.None? ==> records == DeleteFirst(old(records), rguid)
      ensures pbDest.None? ==> (records != old(records) <==> FindFirst(old(records), rguid).Some?)
      ensures pbDest.Some? ==>
                var data := if pbData.Some? then pbData.value[..cbData] else seq(cbData, _ => 0);
                records == SetRecord(old(records), rguid, data) && Holds(pbDest.value, Padded(data))
    {
      hide EncodeAll, Encode, QuadAlign, DeleteFirst, FindFirst, Padded, Holds;
      var _ := Delete(rguid);
      var cbAlloc := QuadAlign(cbData);
      var ok := SizeTo(m_cbData + cbAlloc + RECORD_SIZE, haveMemory);
      if !ok {
        LosesOne(old(records), rguid);
        return None;
      }
      ghost var data := if pbData.Some? then pbData.value[..cbData] else seq(cbData, _ => 0);
      PaddedLength(data);
      var pb := Append(rguid, data, pbData, cbData, cbAlloc);
      pbDest := Some(pb);
    }

    /** Put a record at the end of the buffer, which has room for it. */
    method Append(rguid: Guid, ghost data: seq<byte>, pbData: Option<seq<byte>>, cbData: nat, cbAlloc: nat)
      returns (pbDest: nat)
      requires Valid() && m_pbData != null && m_cbData + RECORD_SIZE + cbAlloc <= m_pbData.Length
      requires m_cbData + cbAlloc + RECORD_SIZE + RECORD_SIZE < ADDRESS_SPACE && cbAlloc == |Padded(data)|
               && cbData == |data|
      requires if pbData.Some? then cbData <= |pbData.value| && data == pbData.value[..cbData]
               else data == seq(cbData, _ => 0)
      modifies this, m_pbData
      ensures Valid() && m_pbData == old(m_pbData) && records == old(records) + [Record(rguid, Padded(data))]
      ensures Holds(pbDest, Padded(data))
    {
      hide EncodeAll, Encode, Padded;
      ghost var was, r := m_pbData[..], Record(rguid, Padded(data));
      PutRecord(m_pbData, m_cbData, rguid, data, pbData, cbData, cbAlloc);
      AddedBytes(was, m_pbData[..], m_cbData, records, r);
      pbDest := m_cbData + RECORD_SIZE;
      m_cbData := m_cbData + cbAlloc + RECORD_SIZE;
      records := records + [r];
    }

    /** The bytes in use, which Write copies into the image. */
    method Bytes() returns (bs: seq<byte>)
      requires Valid()
      ensures bs == EncodeAll(records) && |bs| == m_cbData
    {
      hide EncodeAll;
      bs := if m_pbData == null then [] else m_pbData[..m_cbData];
    }

    /** Forget every record. */
    method Purge()
      requires Valid()
      modifies this
      ensures Valid() && records == [] && m_pbData == old(m_pbData)
    {
      m_cbData, records := 0, [];
    }
  }

  method ReadU32(mem: array<byte>, at: nat) returns (d: dword)
    requires at + 4 <= mem.Length
    ensures d == U32At(mem[..], at)
  {
    var b0: int, b1: int, b2: int, b3: int := mem[at], mem[at + 1], mem[at + 2], mem[at + 3];
    d := b0 + 0x100 * b1 + 0x1_0000 * b2 + 0x100_0000 * b3;
  }

  /** MoveMemory, source and destination overlapping or not. */
  method MoveMemory(mem: array<byte>, to: nat, from: nat, cb: nat)
    requires to <= from && from + cb <= mem.Length
    modifies mem
    ensures forall i :: 0 <= i < mem.Length ==> mem[i] == old(if to <= i < to + cb then mem[i - to + from] else mem[i])
  {
    forall i | to <= i < to + cb {
      mem[i] := mem[i - to + from];
    }
  }

  method CopyMemory(mem: array<byte>, at: nat, bs: seq<byte>)
    requires at + |bs| <= mem.Length
    modifies mem
    ensures mem[..] == Blit(old(mem[..]), at, bs)
  {
    ghost var was := mem[..];
    forall i | 0 <= i < |bs| {
      mem[at + i] := bs[i];
    }
    assert mem[..] == Blit(was, at, bs);
  }

  /** ZeroMemory. */
  method ZeroMemory(mem: array<byte>, at: nat, cb: nat)
    requires at + cb <= mem.Length
    modifies mem
    ensures mem[..] == Blit(old(mem[..]), at, seq(cb, _ => 0))
  {
    ghost var was := mem[..];
    forall i | 0 <= i < cb {
      mem[at + i] := 0;
    }
    assert mem[..] == Blit(was, at, seq(cb, _ => 0));
  }

  /** The data and padding of a record. */
  method PutData(mem: array<byte>, at: nat, ghost data: seq<byte>, pbData: Option<seq<byte>>, cbData: nat, cbAlloc: nat)
    requires at + cbAlloc <= mem.Length && cbAlloc == |Padded(data)| && cbData == |data|
    requires if pbData.Some? then cbData <= |pbData.value| && data == pbData.value[..cbData]
             else data == seq(cbData, _ => 0)
    modifies mem
    ensures mem[..] == Blit(old(mem[..]), at, Padded(data))
  {
    hide Blit, Padded;
    ghost var was := mem[..];
    if pbData.Some? {
      CopyMemory(mem, at, pbData.value[..cbData]);
      PaddedSplit(data);
      BlitTwice(was, at, data, seq(cbAlloc - cbData, _ => 0), Padded(data));
      if cbData < cbAlloc {
        ZeroMemory(mem, at + cbData, cbAlloc - cbData);
      } else {
        BlitNothing(mem[..], at + cbData);
      }
    } else {
      ZeroPadded(data);
      if cbAlloc > 0 {
        ZeroMemory(mem, at, cbAlloc);
      } else {
        BlitNothing(mem[..], at);
      }
    }
  }

  lemma {:induction false} PaddedSplit(data: seq<byte>)
    ensures Padded(data) == data + seq(|Padded(data)| - |data|, _ => 0)
  {
  }

  lemma {:induction false} ZeroPadded(data: seq<byte>)
    requires forall i :: 0 <= i < |data| ==> data[i] == 0
    ensures Padded(data) == seq(|Padded(data)|, _ => 0)
  {
  }

  lemma {:induction false} BlitNothing(mem: seq<byte>, at: nat)
    requires at <= |mem|
    ensures Blit(mem, at, []) == mem && seq(0, _ => 0 as byte) == []
  {
  }

  /** The header, data and padding of a record written at `at`. */
  method PutRecord(mem: array<byte>, at: nat, rguid: Guid, ghost data: seq<byte>, pbData: Option<seq<byte>>,
                   cbData: nat, cbAlloc: nat)
    requires at + RECORD_SIZE + cbAlloc <= mem.Length && RECORD_SIZE + cbAlloc < ADDRESS_SPACE
    requires cbAlloc == |Padded(data)| && cbData == |data|
    requires if pbData.Some? then cbData <= |pbData.value| && data == pbData.value[..cbData]
             else data == seq(cbData, _ => 0)
    modifies mem
    ensures mem[..] == Blit(old(mem[..]), at, Encode(Record(rguid, Padded(data))))
  {
    hide LE32, Blit, Padded;
    ghost var was := mem[..];
    var header := LE32(cbAlloc + RECORD_SIZE) + LE32(0) + rguid;
    CopyMemory(mem, at, header);
    PutData(mem, at + RECORD_SIZE, data, pbData, cbData, cbAlloc);
    BlitTwice(was, at, header, Padded(data), Encode(Record(rguid, Padded(data))));
  }

  lemma {:induction false} HoldsIn(bs: seq<byte>, n: nat, at: nat, r: Record)
    requires n <= |bs| && HoldsRecord(bs[..n], at, r)
    ensures HoldsRecord(bs, at, r)
  {
    var cut := bs[..n];
    assert cut[at + 8..at + RECORD_SIZE] == bs[at + 8..at + RECORD_SIZE];
    assert cut[at + RECORD_SIZE..at + RECORD_SIZE + |r.data|] == bs[at + RECORD_SIZE..at + RECORD_SIZE + |r.data|];
  }

  lemma {:induction false} NotThere(rs: seq<Record>, g: Guid)
    ensures FindFirst(rs, g).None? ==> DeleteFirst(rs, g) == rs
    ensures FindFirst(rs, g).Some? ==> Index(rs, g) < |rs|
  {
  }

  /** Deleting takes a record away if and only if there is one with this GUID. */
  lemma {:induction false} LosesOne(rs: seq<Record>, g: Guid)
    ensures DeleteFirst(rs, g) != rs <==> FindFirst(rs, g).Some?
  {
    NotThere(rs, g);
  }

  lemma {:induction false} LastRecord(rs: seq<Record>, g: Guid)
    requires FindFirst(rs, g).Some?
    ensures Index(rs, g) < |rs|
    ensures Index(rs, g) + 1 >= |rs| ==>
              Offset(rs, Index(rs, g)) + RECORD_SIZE + |FindFirst(rs, g).value| == |EncodeAll(rs)|
  {
    hide EncodeAll, Offset;
    SplitAt(rs, Index(rs, g));
    OffsetEnds(rs);
  }

  lemma {:induction false} DeletedBytes(rs: seq<Record>, g: Guid)
    requires FindFirst(rs, g).Some?
    ensures Index(rs, g) < |rs|
    ensures var k, cb := Index(rs, g), RECORD_SIZE + |FindFirst(rs, g).value|;
            && Offset(rs, k) + cb <= |EncodeAll(rs)|
            && EncodeAll(DeleteFirst(rs, g)) == EncodeAll(rs)[..Offset(rs, k)] + EncodeAll(rs)[Offset(rs, k) + cb..]
  {
    hide EncodeAll;
    var k := Index(rs, g);
    SplitAt(rs, k);
    EncodeAppend(rs[..k], rs[k + 1..]);
  }

  lemma {:induction false} CloseGap(was: seq<byte>, now: seq<byte>, n: nat, to: nat, from: nat)
    requires to <= from <= n <= |was| == |now|
    requires forall i :: 0 <= i < to ==> now[i] == was[i]
    requires forall i :: to <= i < n - (from - to) ==> now[i] == was[i - to + from]
    ensures now[..n - (from - to)] == was[..n][..to] + was[..n][from..]
  {
    var m, joined := n - (from - to), was[..n][..to] + was[..n][from..];
    forall i | 0 <= i < m ensures now[..m][i] == joined[i] {
      assert now[..m][i] == now[i];
      if i < to {
        assert joined[i] == was[..n][..to][i];
      } else {
        assert joined[i] == was[..n][from..][i - to];
      }
    }
  }

  lemma {:induction false} AddedBytes(was: seq<byte>, now: seq<byte>, n: nat, rs: seq<Record>, r: Record)
    requires n + RECORD_SIZE + |r.data| <= |was| && was[..n] == EncodeAll(rs) && now == Blit(was, n, Encode(r))
    ensures now[..n + RECORD_SIZE + |r.data|] == EncodeAll(rs + [r])
    ensures now[n + RECORD_SIZE..n + RECORD_SIZE + |r.data|] == r.data
  {
    EncodeAppend(rs, [r]);
    assert EncodeAll([r]) == Encode(r) + EncodeAll([]);
    hide EncodeAll;
    assert now[n + RECORD_SIZE..n + RECORD_SIZE + |r.data|] == Encode(r)[RECORD_SIZE..];
  }
}
