/** The payload records of a .detour section: their layout, and the ordered list they stand for. */
module PayloadRecords {
  import opened Bytes

  /** sizeof(DETOUR_SECTION_RECORD): cbBytes, nReserved and the GUID. */
  const RECORD_SIZE: nat := 24

  type Guid = g: seq<byte> | |g| == 16 witness seq(16, _ => 0)

  datatype Record = Record(guid: Guid, data: seq<byte>)

  function Encode(r: Record): (bs: seq<byte>)
    ensures |bs| == RECORD_SIZE + |r.data|
  {
    LE32(WrapAddr(RECORD_SIZE + |r.data|)) + LE32(0) + r.guid + r.data
  }

  function EncodeAll(rs: seq<Record>): (bs: seq<byte>)
  {
    if rs == [] then [] else Encode(rs[0]) + EncodeAll(rs[1..])
  }

  lemma {:induction false} EncodeAppend(a: seq<Record>, b: seq<Record>)
    ensures EncodeAll(a + b) == EncodeAll(a) + EncodeAll(b)
  {
    hide Encode;
    if a == [] {
      assert a + b == b;
    } else {
      EncodeAppend(a[1..], b);
      assert (a + b)[0] == a[0] && (a + b)[1..] == a[1..] + b;
      Associates(Encode(a[0]), EncodeAll(a[1..]), EncodeAll(b));
    }
  }

  lemma {:induction false} Associates(a: seq<byte>, b: seq<byte>, c: seq<byte>)
    ensures a + (b + c) == (a + b) + c
  {
  }

  /** Where record `k` starts. */
  function Offset(rs: seq<Record>, k: nat): nat
    requires k <= |rs|
  {
    |EncodeAll(rs[..k])|
  }

  lemma {:induction false} OffsetEnds(rs: seq<Record>)
    ensures Offset(rs, 0) == 0 && Offset(rs, |rs|) == |EncodeAll(rs)|
  {
    assert rs[..|rs|] == rs;
  }

  lemma {:induction false} SplitAt(rs: seq<Record>, k: nat)
    requires k < |rs|
    ensures EncodeAll(rs) == EncodeAll(rs[..k]) + Encode(rs[k]) + EncodeAll(rs[k + 1..])
    ensures Offset(rs, k + 1) == Offset(rs, k) + RECORD_SIZE + |rs[k].data| <= |EncodeAll(rs)|
  {
    hide Encode;
    EncodeAppend(rs[..k], rs[k..]);
    assert rs[..k] + rs[k..] == rs;
    assert rs[k..][1..] == rs[k + 1..];
    EncodeAppend(rs[..k], [rs[k]]);
    assert rs[..k] + [rs[k]] == rs[..k + 1];
    assert EncodeAll([rs[k]]) == Encode(rs[k]) + EncodeAll([]);
  }

  /** The four fields of the record at `at`. */
  predicate HoldsRecord(bs: seq<byte>, at: nat, r: Record) {
    && at + RECORD_SIZE + |r.data| <= |bs|
    && U32At(bs, at) == RECORD_SIZE + |r.data| && U32At(bs, at + 4) == 0
    && bs[at + 8..at + RECORD_SIZE] == r.guid
    && bs[at + RECORD_SIZE..at + RECORD_SIZE + |r.data|] == r.data
  }

  /** A record is read back from wherever its encoding stands. */
  lemma {:induction false} ReadsEncoded(pre: seq<byte>, r: Record, post: seq<byte>)
    requires RECORD_SIZE + |r.data| < ADDRESS_SPACE
    ensures HoldsRecord(pre + Encode(r) + post, |pre|, r)
  {
    hide LE32, U32At;
    var bs, at, e := pre + Encode(r) + post, |pre|, Encode(r);
    var size: dword := RECORD_SIZE + |r.data|;
    Middle(pre, e, post);
    SliceOfSlice(bs, at, at + |e|, 0, 4);
    SliceOfSlice(bs, at, at + |e|, 4, 8);
    SliceOfSlice(bs, at, at + |e|, 8, RECORD_SIZE);
    SliceOfSlice(bs, at, at + |e|, RECORD_SIZE, |e|);
    EncodedFields(r);
    U32Cut(bs, at, LE32(size));
    U32Cut(bs, at + 4, LE32(0));
  }

  lemma {:induction false} Middle(pre: seq<byte>, e: seq<byte>, post: seq<byte>)
    ensures (pre + e + post)[|pre|..|pre| + |e|] == e
  {
  }

  lemma {:induction false} EncodedFields(r: Record)
    requires RECORD_SIZE + |r.data| < ADDRESS_SPACE
    ensures var e := Encode(r);
            e[0..4] == LE32(RECORD_SIZE + |r.data|) && e[4..8] == LE32(0) && e[8..RECORD_SIZE] == r.guid
            && e[RECORD_SIZE..|e|] == r.data
  {
    hide LE32;
  }

  lemma {:induction false} U32Cut(bs: seq<byte>, at: nat, word: seq<byte>)
    requires |word| == 4 && at + 4 <= |bs| && bs[at..at + 4] == word
    ensures U32At(bs, at) == U32At(word, 0)
  {
    var cut := bs[at..at + 4];
    assert cut[0] == bs[at] && cut[1] == bs[at + 1] && cut[2] == bs[at + 2] && cut[3] == bs[at + 3];
  }

  lemma {:induction false} RecordAt(rs: seq<Record>, k: nat)
    requires k < |rs| && |EncodeAll(rs)| < ADDRESS_SPACE
    ensures HoldsRecord(EncodeAll(rs), Offset(rs, k), rs[k])
    ensures Offset(rs, k + 1) == Offset(rs, k) + RECORD_SIZE + |rs[k].data| <= |EncodeAll(rs)|
  {
    hide Encode, HoldsRecord;
    SplitAt(rs, k);
    ReadsEncoded(EncodeAll(rs[..k]), rs[k], EncodeAll(rs[k + 1..]));
  }

  /** The list a buffer stands for, if records tile it exactly. */
  function Decode(bs: seq<byte>): (rs: Option<seq<Record>>)
    decreases |bs|
  {
    if bs == [] then Some([])
    else if |bs| < RECORD_SIZE then None
    else
      var n := U32At(bs, 0);
      if n < RECORD_SIZE || n > |bs| || U32At(bs, 4) != 0 then None
      else
        match Decode(bs[n..])
        case None => None
        case Some(rest) => Some([Record(bs[8..RECORD_SIZE], bs[RECORD_SIZE..n])] + rest)
  }

  lemma {:induction false} DecodeEncoded(rs: seq<Record>)
    requires |EncodeAll(rs)| < ADDRESS_SPACE
    ensures Decode(EncodeAll(rs)) == Some(rs)
  {
    hide Encode;
    if rs != [] {
      var bs := EncodeAll(rs);
      ReadsEncoded([], rs[0], EncodeAll(rs[1..]));
      assert [] + Encode(rs[0]) + EncodeAll(rs[1..]) == bs;
      DecodeEncoded(rs[1..]);
      assert bs[U32At(bs, 0)..] == EncodeAll(rs[1..]);
      assert [rs[0]] + rs[1..] == rs;
    }
  }

  lemma {:induction false} EncodeDecoded(bs: seq<byte>)
    requires Decode(bs).Some?
    ensures EncodeAll(Decode(bs).value) == bs
    decreases |bs|
  {
    hide Encode, U32At;
    if bs != [] {
      var n := U32At(bs, 0);
      EncodeDecoded(bs[n..]);
      var r, rest := Record(bs[8..RECORD_SIZE], bs[RECORD_SIZE..n]), Decode(bs[n..]).value;
      assert ([r] + rest)[1..] == rest;
      EncodeFront(bs);
    }
  }

  lemma {:induction false} EncodeFront(bs: seq<byte>)
    requires |bs| >= RECORD_SIZE && RECORD_SIZE <= U32At(bs, 0) <= |bs| && U32At(bs, 4) == 0
    ensures Encode(Record(bs[8..RECORD_SIZE], bs[RECORD_SIZE..U32At(bs, 0)])) == bs[..U32At(bs, 0)]
  {
    hide LE32, U32At;
    LE32OfU32(bs, 0);
    LE32OfU32(bs, 4);
  }

  /** Records tile a buffer in one way or not at all. */
  lemma {:induction false} TilesExactly(bs: seq<byte>, rs: seq<Record>)
    requires |bs| < ADDRESS_SPACE
    ensures Decode(bs) == Some(rs) <==> EncodeAll(rs) == bs
  {
    hide Decode, EncodeAll;
    if Decode(bs).Some? {
      EncodeDecoded(bs);
    }
    if EncodeAll(rs) == bs {
      DecodeEncoded(rs);
    }
  }

  // ----------------------------------------------------------------- the list

  /** The first record of `g`, or the end. */
  function Index(rs: seq<Record>, g: Guid): (k: nat)
    ensures k <= |rs| && (forall j :: 0 <= j < k ==> rs[j].guid != g) && (k < |rs| ==> rs[k].guid == g)
  {
    if rs == [] || rs[0].guid == g then 0 else 1 + Index(rs[1..], g)
  }

  function FindFirst(rs: seq<Record>, g: Guid): Option<seq<byte>> {
    var k := Index(rs, g);
    if k < |rs| then Some(rs[k].data) else None
  }

  function DeleteFirst(rs: seq<Record>, g: Guid): seq<Record> {
    var k := Index(rs, g);
    if k < |rs| then rs[..k] + rs[k + 1..] else rs
  }

  /** Data padded with zeros to a multiple of eight. */
  function Padded(data: seq<byte>): (p: seq<byte>)
    ensures |p| % 8 == 0 && |data| <= |p| < |data| + 8 && p[..|data|] == data
    ensures forall k :: |data| <= k < |p| ==> p[k] == 0
  {
    data + seq((8 - |data| % 8) % 8, _ => 0)
  }

  function SetRecord(rs: seq<Record>, g: Guid, data: seq<byte>): seq<Record> {
    DeleteFirst(rs, g) + [Record(g, Padded(data))]
  }

  ghost predicate Unique(rs: seq<Record>) {
    forall i, j :: 0 <= i < j < |rs| ==> rs[i].guid != rs[j].guid
  }

  /** The records of other GUIDs, in order. */
  function Others(rs: seq<Record>, g: Guid): seq<Record> {
    if rs == [] then [] else (if rs[0].guid == g then [] else [rs[0]]) + Others(rs[1..], g)
  }

  lemma {:induction false} OthersAppend(a: seq<Record>, b: seq<Record>, g: Guid)
    ensures Others(a + b, g) == Others(a, g) + Others(b, g)
  {
    if a == [] {
      assert a + b == b;
    } else {
      OthersAppend(a[1..], b, g);
      assert (a + b)[1..] == a[1..] + b;
      var front := if a[0].guid == g then [] else [a[0]];
      assert front + (Others(a[1..], g) + Others(b, g)) == (front + Others(a[1..], g)) + Others(b, g);
    }
  }

  /** Deleting or setting one GUID leaves the records of every other as they were, in the same order. */
  lemma {:induction false} OthersKept(rs: seq<Record>, g: Guid, data: seq<byte>)
    ensures Others(DeleteFirst(rs, g), g) == Others(rs, g) == Others(SetRecord(rs, g, data), g)
  {
    var k := Index(rs, g);
    OthersAppend(DeleteFirst(rs, g), [Record(g, Padded(data))], g);
    if k < |rs| {
      OthersAppend(rs[..k], rs[k + 1..], g);
      OthersAppend(rs[..k], rs[k..], g);
      assert rs[..k] + rs[k..] == rs;
      assert rs[k..][1..] == rs[k + 1..];
    }
  }

  lemma {:induction false} FindAppend(a: seq<Record>, b: seq<Record>, g: Guid)
    ensures FindFirst(a + b, g) == if FindFirst(a, g).Some? then FindFirst(a, g) else FindFirst(b, g)
  {
    if a == [] {
      assert a + b == b;
    } else {
      FindAppend(a[1..], b, g);
      assert (a + b)[1..] == a[1..] + b;
      FindStep(a, g);
      FindStep(a + b, g);
    }
  }

  lemma {:induction false} FindStep(rs: seq<Record>, g: Guid)
    requires rs != []
    ensures FindFirst(rs, g) == if rs[0].guid == g then Some(rs[0].data) else FindFirst(rs[1..], g)
  {
  }

  lemma {:induction false} FindOne(r: Record, g: Guid)
    ensures FindFirst([r], g) == if r.guid == g then Some(r.data) else None
  {
  }

  /** What is found after a Set: the new data, unless an older duplicate of the GUID was left in front of it. */
  lemma {:induction false} FindAfterSet(rs: seq<Record>, g: Guid, data: seq<byte>, h: Guid)
    ensures h != g ==> FindFirst(SetRecord(rs, g, data), h) == FindFirst(rs, h) == FindFirst(DeleteFirst(rs, g), h)
    ensures FindFirst(SetRecord(rs, g, data), g)
         == (var left := FindFirst(DeleteFirst(rs, g), g); if left.Some? then left else Some(Padded(data)))
  {
    hide FindFirst, DeleteFirst;
    var rest, r := DeleteFirst(rs, g), Record(g, Padded(data));
    FindAppend(rest, [r], h);
    FindAppend(rest, [r], g);
    FindOne(r, g);
    FindOne(r, h);
    if h != g {
      FindAfterDelete(rs, g, h);
    }
  }

  lemma {:induction false} FindAfterDelete(rs: seq<Record>, g: Guid, h: Guid)
    requires h != g
    ensures FindFirst(DeleteFirst(rs, g), h) == FindFirst(rs, h)
  {
    hide Index, FindFirst;
    var k := Index(rs, g);
    if k < |rs| {
      FindAppend(rs[..k], rs[k + 1..], h);
      FindAppend(rs[..k], rs[k..], h);
      assert rs[..k] + rs[k..] == rs;
      FindStep(rs[k..], h);
      assert rs[k..][1..] == rs[k + 1..];
    }
  }

  /** Uniqueness is kept, and with it a deleted GUID is gone. */
  lemma {:induction false} UniqueKept(rs: seq<Record>, g: Guid, data: seq<byte>)
    requires Unique(rs)
    ensures Unique(DeleteFirst(rs, g)) && FindFirst(DeleteFirst(rs, g), g).None?
    ensures Unique(SetRecord(rs, g, data)) && FindFirst(SetRecord(rs, g, data), g) == Some(Padded(data))
  {
    FindAfterSet(rs, g, data, g);
    var k, rest := Index(rs, g), DeleteFirst(rs, g);
    assert forall j :: 0 <= j < |rest| ==> rest[j] == rs[if j < k then j else j + 1] && rest[j].guid != g;
  }

  // ------------------------------------------------------------------- a run

  datatype Edit = SetIt(g: Guid, data: seq<byte>) | DeleteIt(g: Guid) | PurgeAll

  function Edited(rs: seq<Record>, e: Edit): seq<Record> {
    match e
    case SetIt(g, data) => SetRecord(rs, g, data)
    case DeleteIt(g) => DeleteFirst(rs, g)
    case PurgeAll => []
  }

  function EditedAll(rs: seq<Record>, edits: seq<Edit>): seq<Record>
    decreases |edits|
  {
    if edits == [] then rs else Edited(EditedAll(rs, edits[..|edits| - 1]), edits[|edits| - 1])
  }

  /** What the history alone says `g` holds: its last Set, unless a Delete or a Purge came later. */
  function LastWritten(start: Option<seq<byte>>, edits: seq<Edit>, g: Guid): Option<seq<byte>>
    decreases |edits|
  {
    if edits == [] then start
    else
      var e := edits[|edits| - 1];
      if e.SetIt? && e.g == g then Some(Padded(e.data))
      else if e.PurgeAll? || (e.DeleteIt? && e.g == g) then None
      else LastWritten(start, edits[..|edits| - 1], g)
  }

  /** A store without duplicates stays so, and holds for every GUID what was last written. */
  lemma {:induction false} StoreIsMap(rs: seq<Record>, edits: seq<Edit>, g: Guid)
    requires Unique(rs)
    ensures Unique(EditedAll(rs, edits))
    ensures FindFirst(EditedAll(rs, edits), g) == LastWritten(FindFirst(rs, g), edits, g)
    decreases |edits|
  {
    hide FindFirst, DeleteFirst, SetRecord, Unique;
    if edits != [] {
      var before, e := EditedAll(rs, edits[..|edits| - 1]), edits[|edits| - 1];
      StoreIsMap(rs, edits[..|edits| - 1], g);
      EmptyStore(g);
      if e.SetIt? {
        UniqueKept(before, e.g, e.data);
        FindAfterSet(before, e.g, e.data, g);
      } else if e.DeleteIt? {
        UniqueKept(before, e.g, []);
        FindAfterSet(before, e.g, [], g);
      }
    }
  }

  lemma {:induction false} EmptyStore(g: Guid)
    ensures Unique([]) && FindFirst([], g).None?
  {
  }
}
