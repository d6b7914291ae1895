/** The directory enumeration of mft_scanner.py:124-195: the output buffer of
    `FSCTL_ENUM_USN_DATA` (an 8-byte little-endian next-reference cursor
    followed by `USN_RECORD_V2` records) decoded into the `entries` dict
    `file reference -> (parent reference, name)` of the directories. */
module Usn {
  import opened Wrappers
  import opened Dicts
  import opened Flags
  import opened FsModel

  /** A byte of the returned buffer. */
  newtype Byte = x: int | 0 <= x < 0x100

  /** `_REF_MASK`: the low 48 bits of a file reference. */
  const RefModulus: nat := 0x1_0000_0000_0000

  /** the 8-byte cursor and the fixed part of a record read before the name */
  const CursorBytes: nat := 8
  const RecordHeader: nat := 60

  function U16(b: seq<Byte>, i: nat): (v: nat)
    requires i + 2 <= |b|
    ensures v < 0x1_0000
  {
    b[i] as int + 0x100 * b[i + 1] as int
  }

  function U32(b: seq<Byte>, i: nat): (v: nat)
    requires i + 4 <= |b|
    ensures v < 0x1_0000_0000
  {
    U16(b, i) + 0x1_0000 * U16(b, i + 2)
  }

  function U64(b: seq<Byte>, i: nat): (v: nat)
    requires i + 8 <= |b|
    ensures v < 0x1_0000_0000_0000_0000
  {
    U32(b, i) + 0x1_0000_0000 * U32(b, i + 4)
  }

  /** `v & _REF_MASK` for a non-negative `v`. */
  function Mask48(v: nat): (r: nat)
    ensures r < RefModulus
    ensures v < RefModulus ==> r == v
  {
    v % RefModulus
  }

  // The fields of a `USN_RECORD_V2` the scanner reads, at their offsets
  // from the start of the record.

  function RecLen(b: seq<Byte>, off: nat): nat
    requires off + RecordHeader <= |b|
  {
    U32(b, off)
  }

  function FileRef(b: seq<Byte>, off: nat): (r: nat)
    requires off + RecordHeader <= |b|
    ensures r < RefModulus
  {
    Mask48(U64(b, off + 8))
  }

  function ParentRef(b: seq<Byte>, off: nat): (r: nat)
    requires off + RecordHeader <= |b|
    ensures r < RefModulus
  {
    Mask48(U64(b, off + 16))
  }

  function Attributes(b: seq<Byte>, off: nat): nat
    requires off + RecordHeader <= |b|
  {
    U32(b, off + 52)
  }

  function NameLen(b: seq<Byte>, off: nat): nat
    requires off + RecordHeader <= |b|
  {
    U16(b, off + 56)
  }

  function NameOff(b: seq<Byte>, off: nat): nat
    requires off + RecordHeader <= |b|
  {
    U16(b, off + 58)
  }

  /** A record enters `entries` when its name lies within the returned bytes
      and is not empty, and it is a directory that is not a reparse point. */
  predicate Kept(b: seq<Byte>, off: nat)
    requires off + RecordHeader <= |b|
  {
    && off + NameOff(b, off) + NameLen(b, off) <= |b| && NameLen(b, off) > 0
    && HasFlag(Attributes(b, off), FileAttributeDirectory)
    && !HasFlag(Attributes(b, off), FileAttributeReparsePoint)
  }

  /** One UTF-16 code unit as a character; a surrogate, which only a pair
      could decode, becomes U+FFFD. */
  function UnitChar(u: nat): char
    requires u < 0x1_0000
  {
    if 0xD800 <= u <= 0xDFFF then '\U{FFFD}' else u as char
  }

  /** The name bytes decoded little-endian unit by unit; an odd last byte
      becomes U+FFFD. */
  function DecodeName(b: seq<Byte>): (s: string)
    ensures |s| == (|b| + 1) / 2
  {
    if |b| == 0 then ""
    else if |b| == 1 then "\U{FFFD}"
    else [UnitChar(U16(b, 0))] + DecodeName(b[2..])
  }

  /** The `(file reference, (parent reference, name))` pair a kept record
      stores. */
  function Stored(b: seq<Byte>, off: nat): (kv: (nat, (nat, string)))
    requires off + RecordHeader <= |b| && Kept(b, off)
    ensures kv.0 < RefModulus && kv.1.0 < RefModulus && |kv.1.1| >= 1
  {
    var start := off + NameOff(b, off);
    (FileRef(b, off), (ParentRef(b, off), DecodeName(b[start .. start + NameLen(b, off)])))
  }

  /** The record loop goes on from `off`: a header must fit, and the record
      must have a length and end within the buffer. */
  predicate Continues(b: seq<Byte>, off: nat)
  {
    off + RecordHeader <= |b| && RecLen(b, off) != 0 && off + RecLen(b, off) <= |b|
  }

  /** The offsets at which the loop reads a whole record, from `off` on. */
  function Offsets(b: seq<Byte>, off: nat): seq<nat>
    decreases |b| - off
  {
    if Continues(b, off) then [off] + Offsets(b, off + RecLen(b, off)) else []
  }

  /** The pairs stored by the records read from `off` on, in order. */
  function KeptFrom(b: seq<Byte>, off: nat): seq<(nat, (nat, string))>
    decreases |b| - off
  {
    if !Continues(b, off) then []
    else
      var rest := KeptFrom(b, off + RecLen(b, off));
      if Kept(b, off) then [Stored(b, off)] + rest else rest
  }

  /** `d[k] = v` for each pair in turn. */
  function PutAll<K, V>(d: Dict<K, V>, kvs: seq<(K, V)>): (r: Dict<K, V>)
    requires d.Valid()
    ensures r.Valid()
    decreases |kvs|
  {
    if kvs == [] then d else PutAll(d.Put(kvs[0].0, kvs[0].1), kvs[1..])
  }

  lemma {:induction false} PutAllConcat<K, V>(d: Dict<K, V>, a: seq<(K, V)>, c: seq<(K, V)>)
    requires d.Valid()
    ensures PutAll(d, a + c) == PutAll(PutAll(d, a), c)
    decreases |a|
  {
    if a != [] {
      assert (a + c)[1..] == a[1..] + c;
      PutAllConcat(d.Put(a[0].0, a[0].1), a[1..], c);
    } else {
      assert a + c == c;
    }
  }

  /** After the puts, a key is present iff it was before or some pair has
      it. */
  lemma {:induction false} PutAllHas<K, V>(d: Dict<K, V>, kvs: seq<(K, V)>, k: K)
    requires d.Valid()
    ensures k in PutAll(d, kvs).items <==> k in d.items || exists i | 0 <= i < |kvs| :: kvs[i].0 == k
    decreases |kvs|
  {
    if kvs != [] {
      var rest := kvs[1..];
      PutAllHas(d.Put(kvs[0].0, kvs[0].1), rest, k);
      if k in PutAll(d, kvs).items && k !in d.items && kvs[0].0 != k {
        var i :| 0 <= i < |rest| && rest[i].0 == k;
        assert kvs[i + 1].0 == k;
      }
      if exists i | 0 <= i < |kvs| :: kvs[i].0 == k {
        var i :| 0 <= i < |kvs| && kvs[i].0 == k;
        if i > 0 {
          assert rest[i - 1].0 == k;
        }
      }
    }
  }

  /** A key some pair has holds the value of the last such pair. */
  lemma {:induction false} PutAllLast<K, V>(d: Dict<K, V>, kvs: seq<(K, V)>, i: nat)
    requires d.Valid() && i < |kvs| && forall j | i < j < |kvs| :: kvs[j].0 != kvs[i].0
    ensures kvs[i].0 in PutAll(d, kvs).items && PutAll(d, kvs).items[kvs[i].0] == kvs[i].1
    decreases |kvs|
  {
    var d' := d.Put(kvs[0].0, kvs[0].1);
    var rest := kvs[1..];
    if i > 0 {
      assert rest[i - 1] == kvs[i];
      forall j | i - 1 < j < |rest| ensures rest[j].0 != kvs[i].0 {
        assert rest[j] == kvs[j + 1];
      }
      PutAllLast(d', rest, i - 1);
    } else {
      forall j | 0 <= j < |rest| ensures rest[j].0 != kvs[0].0 {
        assert rest[j] == kvs[j + 1];
      }
      PutAllKeeps(d', rest, kvs[0].0);
    }
  }

  /** A key no pair has keeps its value. */
  lemma {:induction false} PutAllKeeps<K, V>(d: Dict<K, V>, kvs: seq<(K, V)>, k: K)
    requires d.Valid() && k in d.items && forall i | 0 <= i < |kvs| :: kvs[i].0 != k
    ensures k in PutAll(d, kvs).items && PutAll(d, kvs).items[k] == d.items[k]
    decreases |kvs|
  {
    if kvs != [] {
      var rest := kvs[1..];
      forall j | 0 <= j < |rest| ensures rest[j].0 != k {
        assert rest[j] == kvs[j + 1];
      }
      PutAllKeeps(d.Put(kvs[0].0, kvs[0].1), rest, k);
    }
  }

  /** The record loop advances by exactly each record's length: the offsets
      it reads at are strictly increasing, start at `off`, and each leaves
      room for a header; the loop never passes the end of the buffer. */
  lemma {:induction false} OffsetsShape(b: seq<Byte>, off: nat)
    ensures forall i | 0 <= i < |Offsets(b, off)| :: off <= Offsets(b, off)[i] && Offsets(b, off)[i] + RecordHeader <= |b|
    ensures forall i | 0 <= i < |Offsets(b, off)| ::
              Offsets(b, off)[i] + RecLen(b, Offsets(b, off)[i]) <= |b|
    ensures forall i | 0 < i < |Offsets(b, off)| ::
              Offsets(b, off)[i] == Offsets(b, off)[i - 1] + RecLen(b, Offsets(b, off)[i - 1])
              && Offsets(b, off)[i - 1] < Offsets(b, off)[i]
    ensures Offsets(b, off) != [] ==> Offsets(b, off)[0] == off
    decreases |b| - off
  {
    if Continues(b, off) {
      var next := off + RecLen(b, off);
      OffsetsShape(b, next);
      var os := Offsets(b, off);
      var rest := Offsets(b, next);
      assert os == [off] + rest;
      forall i | 0 < i < |os|
        ensures os[i] == os[i - 1] + RecLen(b, os[i - 1]) && os[i - 1] < os[i]
      {
        assert os[i] == rest[i - 1];
        if i > 1 {
          assert os[i - 1] == rest[i - 2];
        }
      }
    }
  }

  /** Every stored pair comes from a kept record at one of the offsets read. */
  lemma {:induction false} KeptFromRecords(b: seq<Byte>, off: nat, i: nat)
    requires i < |KeptFrom(b, off)|
    ensures exists o | o in Offsets(b, off) :: o + RecordHeader <= |b| && Kept(b, o) && KeptFrom(b, off)[i] == Stored(b, o)
    decreases |b| - off
  {
    var next := off + RecLen(b, off);
    var rest := KeptFrom(b, next);
    assert Offsets(b, off) == [off] + Offsets(b, next);
    if Kept(b, off) && i == 0 {
      assert KeptFrom(b, off)[0] == Stored(b, off);
    } else {
      var j := if Kept(b, off) then i - 1 else i;
      assert KeptFrom(b, off)[i] == rest[j];
      KeptFromRecords(b, next, j);
    }
  }

  /** The record loop of one batch (mft_scanner.py:160-184). `b` holds the
      `returned` bytes. Returns the updated `entries` and the cursor for the
      next call. */
  method ParseBatch(b: seq<Byte>, entries: Dict<nat, (nat, string)>) returns (entries': Dict<nat, (nat, string)>, next: nat)
    requires |b| > CursorBytes && entries.Valid()
    ensures entries'.Valid()
    ensures entries' == PutAll(entries, KeptFrom(b, CursorBytes))
    ensures next == U64(b, 0)
  {
    next := U64(b, 0);
    var offset := CursorBytes;
    entries' := entries;
    while offset + RecordHeader <= |b|
      invariant CursorBytes <= offset <= |b| && entries'.Valid()
      invariant PutAll(entries', KeptFrom(b, offset)) == PutAll(entries, KeptFrom(b, CursorBytes))
      decreases |b| - offset
    {
      var recLen := RecLen(b, offset);
      if recLen == 0 || offset + recLen > |b| {
        break;
      }
      var kept, kv := ReadRecord(b, offset);
      var before := entries';
      if kept {
        entries' := entries'.Put(kv.0, kv.1);
      }
      RecordStep(b, offset, before, entries');
      offset := offset + recLen;
    }
  }

  /** Reads the record at `off` (mft_scanner.py:169-184): whether it is a
      directory to keep, and the pair it stores. */
  method ReadRecord(b: seq<Byte>, off: nat) returns (kept: bool, kv: (nat, (nat, string)))
    requires off + RecordHeader <= |b|
    ensures kept == Kept(b, off)
    ensures kept ==> kv == Stored(b, off)
  {
    var fileRef := FileRef(b, off);
    var parentRef := ParentRef(b, off);
    var fileAttrs := Attributes(b, off);
    var nameLen := NameLen(b, off);
    var nameOff := NameOff(b, off);
    var nameStart := off + nameOff;
    var nameEnd := nameStart + nameLen;
    kept, kv := false, (fileRef, (parentRef, ""));
    if nameEnd <= |b| && nameLen > 0 {
      var name := DecodeName(b[nameStart..nameEnd]);
      var isDir := HasFlag(fileAttrs, FileAttributeDirectory);
      var isReparse := HasFlag(fileAttrs, FileAttributeReparsePoint);
      if !isReparse && isDir {
        kept, kv := true, (fileRef, (parentRef, name));
      }
    }
  }

  /** One record moves the loop on: the dict after it, with the pairs still
      to come, is the dict before it with the pairs from it on. */
  lemma RecordStep(b: seq<Byte>, off: nat, d: Dict<nat, (nat, string)>, d': Dict<nat, (nat, string)>)
    requires Continues(b, off) && d.Valid()
    requires d' == if Kept(b, off) then d.Put(Stored(b, off).0, Stored(b, off).1) else d
    ensures d'.Valid()
    ensures PutAll(d', KeptFrom(b, off + RecLen(b, off))) == PutAll(d, KeptFrom(b, off))
  {
    KeptFromStep(b, off);
    if Kept(b, off) {
      PutAllCons(d, Stored(b, off), KeptFrom(b, off + RecLen(b, off)));
    }
  }

  lemma KeptFromStep(b: seq<Byte>, off: nat)
    requires Continues(b, off)
    ensures Kept(b, off) ==> KeptFrom(b, off) == [Stored(b, off)] + KeptFrom(b, off + RecLen(b, off))
    ensures !Kept(b, off) ==> KeptFrom(b, off) == KeptFrom(b, off + RecLen(b, off))
  {
  }

  lemma PutAllCons<K, V>(d: Dict<K, V>, kv: (K, V), rest: seq<(K, V)>)
    requires d.Valid()
    ensures PutAll(d, [kv] + rest) == PutAll(d.Put(kv.0, kv.1), rest)
  {
    assert ([kv] + rest)[1..] == rest;
  }

  /** One `DeviceIoControl(FSCTL_ENUM_USN_DATA)` call: it fails, or fills the
      buffer with `returned` bytes. */
  datatype Response = CallFails | Returned(bytes: seq<Byte>)

  /** The call's answer stops the enumeration. */
  predicate Stops(r: Response)
  {
    r.CallFails? || |r.bytes| <= CursorBytes
  }

  /** The number of leading answers that are batches to decode; answers run
      out as a failing call would. */
  function BatchCount(rs: seq<Response>): (n: nat)
    ensures n <= |rs|
  {
    if rs == [] || Stops(rs[0]) then 0 else 1 + BatchCount(rs[1..])
  }

  /** `entries` after decoding the batches `rs` in turn. */
  function Decoded(d: Dict<nat, (nat, string)>, rs: seq<Response>): (r: Dict<nat, (nat, string)>)
    requires d.Valid() && forall i | 0 <= i < |rs| :: !Stops(rs[i])
    ensures r.Valid()
  {
    if rs == [] then d
    else
      var n := |rs| - 1;
      assert !Stops(rs[n]);
      assert forall i | 0 <= i < n :: rs[..n][i] == rs[i];
      PutAll(Decoded(d, rs[..n]), KeptFrom(rs[n].bytes, CursorBytes))
  }

  /** The progress call after `n` batches: the number of directories found
      so far. */
  function ProgressAfter(rs: seq<Response>, n: nat): Event
    requires n <= |rs| && forall j | 0 <= j < n :: !Stops(rs[j])
  {
    assert forall j | 0 <= j < n :: rs[..n][j] == rs[j];
    Event(0, 0, ReadingMftDirs(|Decoded(Empty(), rs[..n]).keys|), 0.01)
  }

  /** The progress calls of the first `n` batches: one after every 8th. */
  function EventsOf(rs: seq<Response>, n: nat): seq<Event>
    requires n <= |rs| && forall j | 0 <= j < n :: !Stops(rs[j])
  {
    if n == 0 then []
    else EventsOf(rs, n - 1) + if n % 8 == 0 then [ProgressAfter(rs, n)] else []
  }

  /** There is one progress call per full 8 batches, the `k`-th after batch
      `8 * (k + 1)`. */
  lemma {:induction false} EventsOfShape(rs: seq<Response>, n: nat)
    requires n <= |rs| && forall j | 0 <= j < n :: !Stops(rs[j])
    ensures |EventsOf(rs, n)| == n / 8
    ensures forall k | 0 <= k < n / 8 :: 8 * (k + 1) <= n && EventsOf(rs, n)[k] == ProgressAfter(rs, 8 * (k + 1))
  {
    if n > 0 {
      EventsOfShape(rs, n - 1);
      EighthStep(n - 1);
      if n % 8 == 0 {
        EventsAtEighth(rs, n, EventsOf(rs, n - 1));
      } else {
        assert EventsOf(rs, n) == EventsOf(rs, n - 1);
      }
    }
  }

  /** The shape of the progress calls carries over a batch that is an 8th. */
  lemma EventsAtEighth(rs: seq<Response>, n: nat, prev: seq<Event>)
    requires 0 < n <= |rs| && forall j | 0 <= j < n :: !Stops(rs[j])
    requires n % 8 == 0 && n / 8 == (n - 1) / 8 + 1
    requires prev == EventsOf(rs, n - 1) && |prev| == (n - 1) / 8
    requires forall k | 0 <= k < |prev| :: 8 * (k + 1) <= n - 1 && prev[k] == ProgressAfter(rs, 8 * (k + 1))
    ensures |EventsOf(rs, n)| == n / 8
    ensures forall k | 0 <= k < n / 8 :: 8 * (k + 1) <= n && EventsOf(rs, n)[k] == ProgressAfter(rs, 8 * (k + 1))
  {
    assert EventsOf(rs, n) == prev + [ProgressAfter(rs, n)];
    forall k | 0 <= k < n / 8
      ensures 8 * (k + 1) <= n && EventsOf(rs, n)[k] == ProgressAfter(rs, 8 * (k + 1))
    {
      if k < |prev| {
        assert EventsOf(rs, n)[k] == prev[k];
      }
    }
  }

  lemma {:induction false} BatchesDecode(rs: seq<Response>, n: nat)
    requires n <= BatchCount(rs)
    ensures forall i | 0 <= i < n :: !Stops(rs[i])
  {
    if n > 0 {
      BatchesDecode(rs[1..], n - 1);
      forall i | 0 <= i < n ensures !Stops(rs[i]) {
        if i > 0 {
          assert rs[i] == rs[1..][i - 1];
        }
      }
    }
  }

  /** The `entries` dict the enumeration builds from the answers `rs`: the
      leading batches decoded in turn. */
  function Enumeration(rs: seq<Response>): (d: Dict<nat, (nat, string)>)
    ensures d.Valid()
  {
    var n := BatchCount(rs);
    BatchesDecode(rs, n);
    assert forall j | 0 <= j < n :: rs[..n][j] == rs[j];
    Decoded(Empty(), rs[..n])
  }

  /** The batch loop of mft_scanner.py:146-193 over the answers `rs` of
      successive calls. `cursors[k]` is the start reference passed to call
      `k`: 0 first, then each batch's leading cursor. */
  method EnumerateMft(rs: seq<Response>)
    returns (entries: Dict<nat, (nat, string)>, events: seq<Event>, cursors: seq<nat>)
    ensures BatchCount(rs) == |cursors| - 1 && cursors[0] == 0
    ensures forall i | 0 <= i < BatchCount(rs) :: !Stops(rs[i])
    ensures entries == Decoded(Empty(), rs[..BatchCount(rs)])
    ensures CursorsOf(rs, cursors)
    ensures events == EventsOf(rs, BatchCount(rs))
  {
    entries, events, cursors := Empty(), [], [0];
    var i := 0;
    BatchesDecode(rs, BatchCount(rs));
    assert rs[..0] == [];
    while i < |rs| && !Stops(rs[i])
      invariant Enumerated(rs, i, entries, events, cursors)
      decreases |rs| - i
    {
      entries, events, cursors := DecodeBatch(rs, i, entries, events, cursors);
      i := i + 1;
    }
    BatchCountStop(rs, i);
    PrefixDecodes(rs, i);
  }

  /** One turn of the batch loop: decode answer `i`, keep its cursor, and
      report progress after every 8th batch. */
  method DecodeBatch(rs: seq<Response>, i: nat, entries: Dict<nat, (nat, string)>, events: seq<Event>, cursors: seq<nat>)
    returns (entries': Dict<nat, (nat, string)>, events': seq<Event>, cursors': seq<nat>)
    requires Enumerated(rs, i, entries, events, cursors)
    requires i < |rs| && !Stops(rs[i])
    ensures Enumerated(rs, i + 1, entries', events', cursors')
  {
    BatchCountAtLeast(rs, i + 1);
    var next;
    entries', next := ParseBatch(rs[i].bytes, entries);
    cursors' := cursors + [next];
    var progress: seq<Event> := [];
    if (i + 1) % 8 == 0 {
      progress := [Event(0, 0, ReadingMftDirs(|entries'.keys|), 0.01)];
    }
    BatchDone(rs, i, entries, events, cursors, next, entries', progress, cursors');
    events' := events + progress;
  }

  lemma PrefixDecodes(rs: seq<Response>, n: nat)
    requires n <= |rs| && forall i | 0 <= i < n :: !Stops(rs[i])
    ensures forall i | 0 <= i < |rs[..n]| :: !Stops(rs[..n][i])
  {
    assert forall i | 0 <= i < n :: rs[..n][i] == rs[i];
  }

  /** The state of the batch loop after `i` batches. */
  ghost predicate Enumerated(rs: seq<Response>, i: nat, entries: Dict<nat, (nat, string)>, events: seq<Event>, cursors: seq<nat>)
  {
    && i <= BatchCount(rs) && i <= |rs| && |cursors| == i + 1 && cursors[0] == 0
    && (forall j | 0 <= j < i :: !Stops(rs[j]))
    && entries.Valid()
    && entries == Decoded(Empty(), rs[..i])
    && CursorsOf(rs, cursors)
    && events == EventsOf(rs, i)
  }

  /** Each cursor after the first is the leading 8 bytes of the batch
      before it, read as a little-endian reference. */
  predicate CursorsOf(rs: seq<Response>, cursors: seq<nat>)
  {
    && |cursors| <= |rs| + 1
    && forall k | 0 < k < |cursors| ::
         rs[k - 1].Returned? && |rs[k - 1].bytes| > CursorBytes && cursors[k] == U64(rs[k - 1].bytes, 0)
  }

  /** Decoding one more batch. */
  lemma BatchDone(rs: seq<Response>, i: nat, entries: Dict<nat, (nat, string)>, events: seq<Event>, cursors: seq<nat>,
                  next: nat, entries': Dict<nat, (nat, string)>, progress: seq<Event>, cursors': seq<nat>)
    requires Enumerated(rs, i, entries, events, cursors)
    requires i < BatchCount(rs) && i < |rs| && !Stops(rs[i])
    requires entries' == PutAll(entries, KeptFrom(rs[i].bytes, CursorBytes))
    requires next == U64(rs[i].bytes, 0) && cursors' == cursors + [next]
    requires progress == if (i + 1) % 8 == 0 then [Event(0, 0, ReadingMftDirs(|entries'.keys|), 0.01)] else []
    ensures Enumerated(rs, i + 1, entries', events + progress, cursors')
  {
    DecodedStep(rs, i);
    EventsStep(rs, i);
    assert forall j | 0 <= j <= i :: rs[j].Returned? && |rs[j].bytes| > CursorBytes by {
      forall j | 0 <= j <= i ensures rs[j].Returned? && |rs[j].bytes| > CursorBytes {
        assert !Stops(rs[j]);
      }
    }
    CursorsStep(rs, i, cursors, next);
  }

  /** The cursor of batch `i` follows those of the batches before it. */
  lemma CursorsStep(rs: seq<Response>, i: nat, cursors: seq<nat>, next: nat)
    requires i < |rs| && |cursors| == i + 1
    requires forall j | 0 <= j <= i :: rs[j].Returned? && |rs[j].bytes| > CursorBytes
    requires next == U64(rs[i].bytes, 0)
    requires CursorsOf(rs, cursors)
    ensures CursorsOf(rs, cursors + [next])
  {
    var cursors' := cursors + [next];
    forall k | 0 < k < |cursors'|
      ensures rs[k - 1].Returned? && |rs[k - 1].bytes| > CursorBytes && cursors'[k] == U64(rs[k - 1].bytes, 0)
    {
      if k < |cursors| {
        assert cursors'[k] == cursors[k];
      }
    }
  }

  lemma EventsStep(rs: seq<Response>, i: nat)
    requires i < |rs| && forall j | 0 <= j <= i :: !Stops(rs[j])
    ensures EventsOf(rs, i + 1) == EventsOf(rs, i) +
              if (i + 1) % 8 == 0 then [Event(0, 0, ReadingMftDirs(|Decoded(Empty(), rs[..i + 1]).keys|), 0.01)] else []
  {
  }

  lemma DecodedStep(rs: seq<Response>, i: nat)
    requires i < |rs| && forall j | 0 <= j <= i :: !Stops(rs[j])
    ensures Decoded(Empty(), rs[..i + 1]) == PutAll(Decoded(Empty(), rs[..i]), KeptFrom(rs[i].bytes, CursorBytes))
  {
    assert rs[..i + 1][..i] == rs[..i];
  }

  /** Counting one more batch passes a multiple of 8 exactly when the next
      count is one. */
  lemma EighthStep(i: nat)
    ensures (i + 1) % 8 == 0 ==> (i + 1) / 8 == i / 8 + 1 && 8 * (i / 8 + 1) == i + 1
    ensures (i + 1) % 8 != 0 ==> (i + 1) / 8 == i / 8
  {
    var q, r := i / 8, i % 8;
    assert i == 8 * q + r && 0 <= r < 8;
    if r == 7 {
      assert i + 1 == 8 * (q + 1);
    } else {
      assert i + 1 == 8 * q + (r + 1);
    }
  }

  lemma {:induction false} BatchCountAtLeast(rs: seq<Response>, i: nat)
    requires i <= |rs| && forall j | 0 <= j < i :: !Stops(rs[j])
    ensures BatchCount(rs) >= i
  {
    if i > 0 {
      BatchCountAtLeast(rs[1..], i - 1);
    }
  }

  /** The loop stops exactly after the leading batches. */
  lemma {:induction false} BatchCountStop(rs: seq<Response>, i: nat)
    requires i <= |rs| && (forall j | 0 <= j < i :: !Stops(rs[j])) && (i == |rs| || Stops(rs[i]))
    ensures BatchCount(rs) == i
  {
    if i > 0 {
      BatchCountStop(rs[1..], i - 1);
    }
  }

  /** Every enumerated directory has a reference and a parent below 2^48 and
      a name that is not empty. */
  lemma {:induction false} DecodedEntries(rs: seq<Response>, k: nat)
    requires forall i | 0 <= i < |rs| :: !Stops(rs[i])
    requires k in Decoded(Empty(), rs).items
    ensures k < RefModulus && Decoded(Empty(), rs).items[k].0 < RefModulus
    ensures |Decoded(Empty(), rs).items[k].1| >= 1
  {
    var n := |rs| - 1;
    var d := Decoded(Empty(), rs[..n]);
    var kvs := KeptFrom(rs[n].bytes, CursorBytes);
    PutAllHas(d, kvs, k);
    if exists i | 0 <= i < |kvs| :: kvs[i].0 == k {
      var i := LastWith(kvs, k);
      PutAllLast(d, kvs, i);
      KeptFromRecords(rs[n].bytes, CursorBytes, i);
      var o :| o in Offsets(rs[n].bytes, CursorBytes) && o + RecordHeader <= |rs[n].bytes|
               && Kept(rs[n].bytes, o) && kvs[i] == Stored(rs[n].bytes, o);
    } else {
      assert forall j | 0 <= j < n :: rs[..n][j] == rs[j];
      DecodedEntries(rs[..n], k);
      PutAllKeeps(d, kvs, k);
    }
  }

  /** The last position of a pair with key `k`. */
  lemma LastWith<K, V>(kvs: seq<(K, V)>, k: K) returns (i: nat)
    requires exists i | 0 <= i < |kvs| :: kvs[i].0 == k
    ensures i < |kvs| && kvs[i].0 == k && forall j | i < j < |kvs| :: kvs[j].0 != k
  {
    var n := |kvs| - 1;
    if kvs[n].0 == k {
      i := n;
    } else {
      var i0 :| 0 <= i0 < |kvs| && kvs[i0].0 == k;
      i := LastWith(kvs[..n], k);
    }
  }

  /** A buffer holding the cursor 7 and one 64-byte record for directory 12
      (parent 5) named "A" is decoded to that one entry. */
  lemma OneRecordBatch()
    ensures KeptFrom(SampleBatch(), CursorBytes) == [(12, (5, "A"))]
  {
    var b := SampleBatch();
    assert RecLen(b, 8) == 64 && FileRef(b, 8) == 12 && ParentRef(b, 8) == 5;
    assert Attributes(b, 8) == 0x10 && NameLen(b, 8) == 2 && NameOff(b, 8) == 60;
    assert Kept(b, 8);
    var name := b[68..70];
    assert name == [65, 0];
    assert U16(name, 0) == 65;
    assert DecodeName(name) == [UnitChar(65)] + DecodeName(name[2..]);
    assert DecodeName(name) == "A";
    assert Stored(b, 8) == (12, (5, "A"));
    assert !Continues(b, 72);
    KeptFromStep(b, 8);
  }

  /** The cursor 7, then a record with RecordLength 64, FileReferenceNumber
      12, ParentFileReferenceNumber 5, FileAttributes 0x10, FileNameLength 2,
      FileNameOffset 60 and the name "A". */
  function SampleBatch(): (b: seq<Byte>)
    ensures |b| == 72
  {
    [7, 0, 0, 0, 0, 0, 0, 0] + [64, 0, 0, 0, 2, 0, 0, 0] + [12, 0, 0, 0, 0, 0, 0, 0] + [5, 0, 0, 0, 0, 0, 0, 0]
    + [0, 0, 0, 0, 0, 0, 0, 0] + [0, 0, 0, 0, 0, 0, 0, 0] + [0, 0, 0, 0, 0, 0, 0, 0]
    + [0, 0, 0, 0, 0x10, 0, 0, 0] + [2, 0, 60, 0, 65, 0, 0, 0]
  }
}
