/** The write-ahead log: whatever prefix of it survives, replay returns the entries that are whole. */
module Wal {
  import opened Base
  import opened LittleEndian
  import opened Crc

  type Bytes = seq<byte>

  /** Length, checksum, contents. */
  function Frame(entry: Bytes): (f: Bytes)
    ensures |f| == 8 + |entry|
  {
    Encode(|entry|, 4) + Encode(Checksum(entry), 4) + entry
  }

  function Log(entries: seq<Bytes>): (log: Bytes) {
    if entries == [] then [] else Frame(entries[0]) + Log(entries[1..])
  }

  /** The entry at the front of the data, if its frame is whole and its checksum right. */
  function FirstEntry(data: Bytes): (e: Option<Bytes>)
    ensures e.Some? ==> 8 + |e.value| <= |data|
  {
    if |data| < 8 then None
    else
      var length := Decode(data[0..4]);
      if length > |data| - 8 then None
      else
        var payload := data[8..8 + length];
        if Checksum(payload) != Decode(data[4..8]) then None else Some(payload)
  }

  function Replay(data: Bytes): (entries: seq<Bytes>)
    decreases |data|
  {
    match FirstEntry(data) case None => [] case Some(e) => [e] + Replay(data[8 + |e|..])
  }

  /** The entries whose frames fit into the first `cut` bytes of the log. */
  function Fitting(entries: seq<Bytes>, cut: nat): (k: nat)
    ensures k <= |entries|
  {
    if entries != [] && |Frame(entries[0])| <= cut then 1 + Fitting(entries[1..], cut - |Frame(entries[0])|) else 0
  }

  /** How the writes of an append end: all on disk, written but not synced, or given up after some bytes. */
  datatype Outcome = Durable | NotSynced | GivenUp(bytes: nat)

  /** The log file. Once an append was given up inside a frame, what follows is behind a torn frame. */
  class WalWriter {
    var open: bool
    var log: Bytes
    ghost var entries: seq<Bytes>
    ghost var torn: bool

    ghost predicate Valid()
      reads this
    {
      && (forall i :: 0 <= i < |entries| ==> |entries[i]| < U32_LIMIT)
      && (!torn ==> log == Log(entries))
    }

    constructor ()
      ensures Valid() && entries == [] && open && !torn
    {
      open, log, entries, torn := true, [], [], false;
    }

    method Close()
      modifies this`open
      ensures !open
    {
      open := false;
    }

    /** Whatever happens to it, an append to a log that is not torn leaves a log that replays to whole entries. */
    method Append(entry: Bytes, outcome: Outcome) returns (r: Result<()>)
      requires Valid() && (outcome.GivenUp? ==> outcome.bytes < |Frame(entry)|)
      modifies this
      ensures Valid() && open == old(open)
      ensures r == if !open then Err(FailedPrecondition) else if |entry| >= U32_LIMIT then Err(InvalidArgument)
                   else if outcome.Durable? then Ok(()) else Err(Internal)
      ensures log == if !open || |entry| >= U32_LIMIT then old(log)
                     else old(log) + Frame(entry)[..if outcome.GivenUp? then outcome.bytes else |Frame(entry)|]
      ensures entries == if !open || |entry| >= U32_LIMIT
                || outcome.GivenUp? then old(entries) else old(entries) + [entry]
      ensures !old(torn) ==> Replay(log) == entries && (torn <==> log != Log(entries))
    {
      if !torn {
        ReplayAll(entries);
      }
      hide Log, Replay;
      if !open {
        return Err(FailedPrecondition);
      }
      if |entry| > 0xFFFFFFFF {
        return Err(InvalidArgument);
      }
      var crc := Crc32(entry);
      var framed := Encode(|entry|, 4) + Encode(crc, 4) + entry;
      assert framed == Frame(entry);
      hide Frame;
      if outcome.GivenUp? {
        if !torn {
          TornReplays(entries, entry, outcome.bytes);
        }
        log := log + framed[..outcome.bytes];
        torn := torn || outcome.bytes > 0;
        return Err(Internal);
      }
      if !torn {
        LogSnoc(entries, entry);
        ReplayAll(entries + [entry]);
      }
      assert framed[..|framed|] == framed;
      log := log + framed;
      entries := entries + [entry];
      r := if outcome.Durable? then Ok(()) else Err(Internal);
    }
  }

  /** Less than a frame behind whole frames is not replayed. */
  lemma {:induction false} TornReplays(entries: seq<Bytes>, entry: Bytes, n: nat)
    requires n < |Frame(entry)| && |entry| < U32_LIMIT && forall i :: 0 <= i < |entries| ==> |entries[i]| < U32_LIMIT
    ensures Replay(Log(entries) + Frame(entry)[..n]) == entries
    ensures n > 0 ==> Log(entries) + Frame(entry)[..n] != Log(entries)
    ensures n == 0 ==> Log(entries) + Frame(entry)[..n] == Log(entries)
  {
    hide Frame, Replay, Fitting, Log;
    var all, cut := entries + [entry], |Log(entries)| + n;
    LogSnoc(entries, entry);
    assert (Log(entries) + Frame(entry))[..cut] == Log(entries) + Frame(entry)[..n];
    ReplayOfCut(all, cut);
    FittingBeforeTear(entries, entry, n);
    assert all[..|entries|] == entries;
    assert |Log(entries) + Frame(entry)[..n]| == |Log(entries)| + n;
  }

  lemma {:induction false} FittingBeforeTear(entries: seq<Bytes>, entry: Bytes, n: nat)
    requires n < |Frame(entry)|
    ensures Fitting(entries + [entry], |Log(entries)| + n) == |entries|
  {
    hide Frame;
    if entries == [] {
      assert [] + [entry] == [entry];
    } else {
      FittingBeforeTear(entries[1..], entry, n);
      assert (entries + [entry])[1..] == entries[1..] + [entry];
    }
  }

  lemma {:induction false} LogSnoc(entries: seq<Bytes>, entry: Bytes)
    ensures Log(entries + [entry]) == Log(entries) + Frame(entry)
  {
    hide Frame;
    if entries == [] {
      assert Log([entry]) == Frame(entry) + Log([entry][1..]);
      assert [] + [entry] == [entry] && [entry][1..] == [];
    } else {
      assert (entries + [entry])[1..] == entries[1..] + [entry];
      LogSnoc(entries[1..], entry);
    }
  }

  /** A whole frame is read back and the rest follows; less than a frame is not read at all. */
  lemma {:induction false} FrameReadBack(entry: Bytes, rest: Bytes, cut: nat)
    requires |entry| < U32_LIMIT && cut <= |Frame(entry) + rest|
    ensures FirstEntry((Frame(entry) + rest)[..cut]) == if |Frame(entry)| <= cut then Some(entry) else None
  {
    var data := (Frame(entry) + rest)[..cut];
    if cut >= 8 {
      FrameHead(entry, rest, cut);
      hide Encode, Decode, Checksum;
      if |Frame(entry)| <= cut {
        assert data[8..8 + |entry|] == entry;
      }
    }
  }

  /** The first eight bytes of a frame give the length and the checksum. */
  lemma {:induction false} FrameHead(entry: Bytes, rest: Bytes, cut: nat)
    requires |entry| < U32_LIMIT && 8 <= cut <= |Frame(entry) + rest|
    ensures var data := (Frame(entry) + rest)[..cut];
            Decode(data[0..4]) == |entry| && Decode(data[4..8]) == Checksum(entry)
  {
    Limits();
    Pow2Of32();
    var length, sum := Encode(|entry|, 4), Encode(Checksum(entry), 4);
    DecodeEncode(|entry|, 4);
    DecodeEncode(Checksum(entry), 4);
    hide Encode, Decode, Checksum;
    HeadOfThree(length, sum, entry + rest, cut);
    assert Frame(entry) + rest == length + sum + (entry + rest);
  }

  lemma {:induction false} HeadOfThree(a: Bytes, b: Bytes, c: Bytes, cut: nat)
    requires |a| == 4 && |b| == 4 && 8 <= cut <= |a + b + c|
    ensures (a + b + c)[..cut][0..4] == a && (a + b + c)[..cut][4..8] == b
  {
  }

  /** Cut anywhere, the log replays to exactly the entries whose frames end at or before the cut. */
  lemma {:induction false} ReplayOfCut(entries: seq<Bytes>, cut: nat)
    requires cut <= |Log(entries)| && forall i :: 0 <= i < |entries| ==> |entries[i]| < U32_LIMIT
    ensures Replay(Log(entries)[..cut]) == entries[..Fitting(entries, cut)]
  {
    hide FirstEntry;
    if entries == [] {
      NothingToRead();
      assert Log(entries)[..cut] == [];
    } else {
      var e, rest := entries[0], Log(entries[1..]);
      FrameReadBack(e, rest, cut);
      var f := Frame(e);
      hide Frame;
      if |f| <= cut {
        assert (f + rest)[..cut][|f|..] == rest[..cut - |f|];
        ReplayOfCut(entries[1..], cut - |f|);
        assert entries == [e] + entries[1..];
      }
    }
  }

  lemma {:induction false} NothingToRead()
    ensures FirstEntry([]).None?
  {
  }

  /** Fitting is the largest number of leading frames that end within the cut. */
  lemma {:induction false} FittingIsLargest(entries: seq<Bytes>, cut: nat)
    ensures |Log(entries[..Fitting(entries, cut)])| <= cut
    ensures Fitting(entries, cut) < |entries| ==> |Log(entries[..Fitting(entries, cut) + 1])| > cut
  {
    hide Frame;
    if entries != [] {
      var f := Frame(entries[0]);
      var k := Fitting(entries, cut);
      if |f| <= cut {
        FittingIsLargest(entries[1..], cut - |f|);
        assert entries[..k][1..] == entries[1..][..k - 1];
        if k < |entries| {
          assert entries[..k + 1][1..] == entries[1..][..k];
        }
      } else {
        assert entries[..1][1..] == [];
      }
    }
  }

  /** Behind whole frames, anything that is no entry ends the replay. */
  lemma {:induction false} ReplayBefore(entries: seq<Bytes>, tail: Bytes)
    requires FirstEntry(tail).None? && forall i :: 0 <= i < |entries| ==> |entries[i]| < U32_LIMIT
    ensures Replay(Log(entries) + tail) == entries
    decreases |entries|
  {
    hide FirstEntry, Frame;
    if entries == [] {
      assert Log(entries) + tail == tail;
    } else {
      var e := entries[0];
      var rest, data := Log(entries[1..]) + tail, Log(entries) + tail;
      assert data == Frame(e) + rest && data[..|data|] == data;
      FrameReadBack(e, rest, |data|);
      assert data[8 + |e|..] == rest;
      ReplayBefore(entries[1..], tail);
      assert entries == [e] + entries[1..];
    }
  }

  /** A whole log replays to all its entries. */
  lemma {:induction false} ReplayAll(entries: seq<Bytes>)
    requires forall i :: 0 <= i < |entries| ==> |entries[i]| < U32_LIMIT
    ensures Replay(Log(entries)) == entries
  {
    hide FirstEntry, Replay, Log;
    NothingToRead();
    ReplayBefore(entries, []);
    assert Log(entries) + [] == Log(entries);
  }

  /** An entry with up to four consecutive bytes changed ends the replay before it. */
  lemma {:induction false} ReplayStopsAtDamage(entries: seq<Bytes>, before: Bytes, w: Bytes, w': Bytes, after: Bytes,
                                               rest: Bytes)
    requires forall i :: 0 <= i < |entries| ==> |entries[i]| < U32_LIMIT
    requires |before + w + after| < U32_LIMIT && |w| == |w'| <= 4 && w != w'
    ensures Replay(Log(entries) + (Frame(before + w + after)[..8] + (before + w' + after) + rest)) == entries
  {
    hide FirstEntry, Replay, Log, Frame;
    DamagedIsNoEntry(before, w, w', after, rest);
    ReplayBefore(entries, Frame(before + w + after)[..8] + (before + w' + after) + rest);
  }

  lemma {:induction false} DamagedIsNoEntry(before: Bytes, w: Bytes, w': Bytes, after: Bytes, rest: Bytes)
    requires |before + w + after| < U32_LIMIT && |w| == |w'| <= 4 && w != w'
    ensures FirstEntry(Frame(before + w + after)[..8] + (before + w' + after) + rest).None?
  {
    Limits();
    Pow2Of32();
    var was, now := before + w + after, before + w' + after;
    var data := Frame(was)[..8] + now + rest;
    assert data[0..4] == Encode(|was|, 4) && data[4..8] == Encode(Checksum(was), 4);
    DecodeEncode(|was|, 4);
    DecodeEncode(Checksum(was), 4);
    BurstChangesChecksum(before, w, w', after);
    hide Encode, Decode, Checksum;
    assert data[8..8 + |now|] == now;
  }

  /** The entry at an offset, if its frame is whole and its checksum right. */
  method ScanEntry(data: Bytes, offset: nat) returns (e: Option<Bytes>)
    requires offset + 8 <= |data|
    ensures e == FirstEntry(data[offset..])
  {
    hide Checksum, Decode;
    var length := Decode(data[offset..offset + 4]);
    var stored := Decode(data[offset + 4..offset + 8]);
    ghost var rest := data[offset..];
    assert rest[0..4] == data[offset..offset + 4] && rest[4..8] == data[offset + 4..offset + 8];
    var start := offset + 8;
    if length > |data| - start {
      return None;
    }
    var payload := data[start..start + length];
    assert rest[8..8 + length] == payload;
    var crc := Crc32(payload);
    e := if crc == stored then Some(payload) else None;
  }

  lemma {:induction false} ReplayNext(data: Bytes, offset: nat)
    requires offset <= |data|
    ensures match FirstEntry(data[offset..])
            case None => Replay(data[offset..]) == []
            case Some(e) =>
              offset + 8 + |e| <= |data| && Replay(data[offset..]) == [e] + Replay(data[offset + 8 + |e|..])
  {
    hide FirstEntry;
    if FirstEntry(data[offset..]).Some? {
      var n := 8 + |FirstEntry(data[offset..]).value|;
      assert data[offset..][n..] == data[offset + n..];
    }
  }

  lemma {:induction false} TooShortToRead(data: Bytes)
    requires |data| < 8
    ensures Replay(data) == []
  {
  }

  method ReplayWal(data: Bytes) returns (entries: seq<Bytes>)
    ensures entries == Replay(data)
  {
    hide FirstEntry, Replay;
    entries := [];
    var offset := 0;
    assert data[0..] == data;
    while offset + 8 <= |data|
      invariant 0 <= offset <= |data| && Replay(data) == entries + Replay(data[offset..])
      decreases |data| - offset
    {
      ReplayNext(data, offset);
      var e := ScanEntry(data, offset);
      if e.None? {
        return;
      }
      entries := entries + [e.value];
      offset := offset + 8 + |e.value|;
    }
    TooShortToRead(data[offset..]);
  }
}
