/**
  Address lookup in an untrusted XDB image: the vector index, the binary search
  over fixed-size records, and the region text they point to.
*/
module Xdb {
  import opened Wrappers

  type Byte = x: int | 0 <= x < 256

  const HEADER_LENGTH := 256
  const VECTOR_INDEX_LENGTH := 256 * 256 * 8
  const USIZE_MAX := 0xFFFF_FFFF_FFFF_FFFF

  /** An image in memory: the length of a vector is below `usize::MAX`. */
  type Image = bytes: seq<Byte> | |bytes| < USIZE_MAX

  datatype IpVersion = V4 | V6 {
    function Length(): nat {
      if V4? then 4 else 16
    }
  }

  datatype Reader = Reader(bytes: Image, version: IpVersion) {
    predicate Valid() {
      |bytes| >= HEADER_LENGTH + VECTOR_INDEX_LENGTH
    }
  }

  /** `Error` stands for an offset outside the image or text that is not UTF-8. */
  datatype Answer = Region(text: string) | Absent | Error

  /** UTF-8 decoding. */
  type Decoder = seq<Byte> -> Option<string>

  // -------------------------------------------------------------------------
  // Numbers in bytes
  // -------------------------------------------------------------------------

  /** Little-endian value. */
  function FromLe(s: seq<Byte>): nat {
    if s == [] then 0 else s[0] + 256 * FromLe(s[1..])
  }

  /** Big-endian value, the number an address in network order stands for. */
  function FromBe(s: seq<Byte>): nat {
    if s == [] then 0 else FromBe(s[..|s| - 1]) * 256 + s[|s| - 1]
  }

  function Reverse(s: seq<Byte>): (r: seq<Byte>)
    ensures |r| == |s|
  {
    if s == [] then [] else Reverse(s[1..]) + [s[0]]
  }

  /** Index addresses are little-endian for IPv4 and big-endian for IPv6. */
  function DecodeIndexIp(s: seq<Byte>, version: IpVersion): (r: seq<Byte>)
    ensures |r| == |s|
  {
    match version
    case V4 => Reverse(s)
    case V6 => s
  }

  /** Lexicographic order of byte vectors. */
  predicate LexLess(a: seq<Byte>, b: seq<Byte>) {
    exists k :: 0 <= k <= |a| && k < |b| && a[..k] == b[..k] && (k == |a| || a[k] < b[k])
  }

  lemma {:induction false} ReversedIsLittleEndian(s: seq<Byte>)
    ensures FromBe(Reverse(s)) == FromLe(s)
  {
    if s != [] {
      ReversedIsLittleEndian(s[1..]);
      var r := Reverse(s);
      assert r[..|r| - 1] == Reverse(s[1..]);
    }
  }

  lemma LexLessSplit(a: seq<Byte>, b: seq<Byte>)
    requires |a| == |b| > 0
    ensures var n := |a| - 1;
            LexLess(a, b) <==> LexLess(a[..n], b[..n]) || (a[..n] == b[..n] && a[n] < b[n])
  {
    var n := |a| - 1;
    var x, y := a[..n], b[..n];
    if LexLess(a, b) {
      var k :| 0 <= k <= |a| && k < |b| && a[..k] == b[..k] && (k == |a| || a[k] < b[k]);
      if k < n {
        assert x[..k] == a[..k] && y[..k] == b[..k];
      }
    }
    if LexLess(x, y) {
      var k :| 0 <= k <= |x| && k < |y| && x[..k] == y[..k] && (k == |x| || x[k] < y[k]);
      assert a[..k] == x[..k] && b[..k] == y[..k];
    }
    if x == y && a[n] < b[n] {
      assert a[..n] == b[..n];
    }
  }

  lemma Digits(x: nat, y: nat, c: Byte, d: Byte)
    ensures x * 256 + c < y * 256 + d <==> x < y || (x == y && c < d)
    ensures x * 256 + c == y * 256 + d <==> x == y && c == d
  {
  }

  /** On equally long addresses the order of byte vectors is the order of the numbers. */
  lemma {:induction false} LexIsNumeric(a: seq<Byte>, b: seq<Byte>)
    requires |a| == |b|
    ensures LexLess(a, b) <==> FromBe(a) < FromBe(b)
    ensures FromBe(a) == FromBe(b) ==> a == b
  {
    if a != [] {
      var n := |a| - 1;
      LexIsNumeric(a[..n], b[..n]);
      LexLessSplit(a, b);
      Digits(FromBe(a[..n]), FromBe(b[..n]), a[n], b[n]);
      assert a == a[..n] + [a[n]] && b == b[..n] + [b[n]];
    }
  }

  lemma FromLeBound4(s: seq<Byte>)
    requires |s| == 4
    ensures FromLe(s) < 0x1_0000_0000
  {
    assert s[1..][1..] == s[2..] && s[2..][1..] == s[3..] && s[3..][1..] == [];
    assert FromLe(s[3..]) == s[3];
    assert FromLe(s[2..]) == s[2] + 256 * FromLe(s[3..]);
    assert FromLe(s[1..]) == s[1] + 256 * FromLe(s[2..]);
  }

  // -------------------------------------------------------------------------
  // Reading the image
  // -------------------------------------------------------------------------

  /** `usize::saturating_add`. */
  function AddUsize(a: nat, b: nat): nat {
    if a + b > USIZE_MAX then USIZE_MAX else a + b
  }

  /** `usize::saturating_mul`. */
  function MulUsize(a: nat, b: nat): nat {
    if a * b > USIZE_MAX then USIZE_MAX else a * b
  }

  /** The bytes at `offset`, or `None` when they are not all inside the image. */
  function Slice(bytes: Image, offset: nat, length: nat): (r: Option<seq<Byte>>)
    ensures r == if offset + length <= |bytes| then Some(bytes[offset..offset + length]) else None
  {
    var end := AddUsize(offset, length);
    if offset <= end <= |bytes| then Some(bytes[offset..end]) else None
  }

  function ReadU32(bytes: Image, offset: nat): Option<nat> {
    match Slice(bytes, offset, 4)
    case None => None
    case Some(s) => Some(FromLe(s))
  }

  /** The header of an image that can be read: structure 3, policy 1, this address family, four-byte offsets. */
  predicate HasHeader(bytes: seq<Byte>, version: IpVersion)
    requires |bytes| >= 20
  {
    && bytes[0..4] == [3, 0, 1, 0]
    && bytes[16..20] == [if version.V4? then 4 else 6, 0, 4, 0]
  }

  lemma TwoBytes(s: seq<Byte>)
    requires |s| == 2
    ensures var low: int, high: int := s[0], s[1]; FromLe(s) == low + 256 * high
  {
    assert s[1..] == [s[1]] && s[1..][1..] == [];
    assert FromLe(s[1..]) == s[1] + 256 * FromLe([]);
  }

  /** Accepts exactly the images that are long enough and have a known header. */
  function FromBytes(bytes: Image): (r: Option<Reader>)
    ensures r.Some? ==> r.value.Valid() && r.value.bytes == bytes && HasHeader(bytes, r.value.version)
    ensures |bytes| >= HEADER_LENGTH + VECTOR_INDEX_LENGTH && (exists v :: HasHeader(bytes, v)) ==> r.Some?
  {
    if |bytes| < HEADER_LENGTH + VECTOR_INDEX_LENGTH then None
    else
      TwoBytes(bytes[0..2]);
      TwoBytes(bytes[2..4]);
      TwoBytes(bytes[16..18]);
      TwoBytes(bytes[18..20]);
      HeaderBytes(bytes);
      if FromLe(bytes[0..2]) != 3 then None
      else if FromLe(bytes[2..4]) != 1 then None
      else
        match FromLe(bytes[16..18])
        case 4 => if FromLe(bytes[18..20]) != 4 then None else Some(Reader(bytes, V4))
        case 6 => if FromLe(bytes[18..20]) != 4 then None else Some(Reader(bytes, V6))
        case _ => None
  }

  lemma HeaderBytes(bytes: seq<Byte>)
    requires |bytes| >= 20
    ensures forall v :: HasHeader(bytes, v) <==>
              && bytes[0] == 3 && bytes[1] == 0 && bytes[2] == 1 && bytes[3] == 0
              && bytes[16] == (if v.V4? then 4 else 6) && bytes[17] == 0 && bytes[18] == 4 && bytes[19] == 0
  {
    var a, b := bytes[0..4], bytes[16..20];
    assert a == [bytes[0], bytes[1], bytes[2], bytes[3]] && b == [bytes[16], bytes[17], bytes[18], bytes[19]];
    forall v: IpVersion
      ensures HasHeader(bytes, v) <==>
                && bytes[0] == 3 && bytes[1] == 0 && bytes[2] == 1 && bytes[3] == 0
                && bytes[16] == (if v.V4? then 4 else 6) && bytes[17] == 0 && bytes[18] == 4 && bytes[19] == 0
    {
      var c, d: seq<Byte> := [3, 0, 1, 0], [if v.V4? then 4 else 6, 0, 4, 0];
      if HasHeader(bytes, v) {
        assert a[0] == c[0] && a[1] == c[1] && a[2] == c[2] && a[3] == c[3];
        assert b[0] == d[0] && b[1] == d[1] && b[2] == d[2] && b[3] == d[3];
      }
    }
  }

  function RecordLength(version: IpVersion): nat {
    version.Length() * 2 + 6
  }

  /** Where the vector index entry of an address is. */
  function Point(octets: seq<Byte>): nat
    requires |octets| >= 2
  {
    var high: int, low: int := octets[0], octets[1];
    HEADER_LENGTH + (high * 256 + low) * 8
  }

  function RecordAt(reader: Reader, start: nat, i: nat): (r: Option<seq<Byte>>)
    ensures r.Some? ==> |r.value| == RecordLength(reader.version)
  {
    var length := RecordLength(reader.version);
    Slice(reader.bytes, AddUsize(start, MulUsize(i, length)), length)
  }

  function StartIp(reader: Reader, record: seq<Byte>): seq<Byte>
    requires |record| >= RecordLength(reader.version)
  {
    DecodeIndexIp(record[..reader.version.Length()], reader.version)
  }

  function EndIp(reader: Reader, record: seq<Byte>): seq<Byte>
    requires |record| >= RecordLength(reader.version)
  {
    DecodeIndexIp(record[reader.version.Length()..reader.version.Length() * 2], reader.version)
  }

  /** The region text a record points to. */
  function Fetch(reader: Reader, record: seq<Byte>, decode: Decoder): Answer
    requires |record| >= RecordLength(reader.version)
  {
    var n := reader.version.Length() * 2;
    var length, offset := FromLe(record[n..n + 2]), FromLe(record[n + 2..n + 6]);
    match Slice(reader.bytes, offset, length)
    case None => Error
    case Some(data) =>
      match decode(data)
      case None => Error
      case Some(text) => Region(text)
  }

  /** The vector index entry of any address is inside every accepted image. */
  lemma IndexEntriesAreReadable(reader: Reader, octets: seq<Byte>)
    requires reader.Valid() && |octets| >= 2
    ensures ReadU32(reader.bytes, Point(octets)).Some? && ReadU32(reader.bytes, Point(octets) + 4).Some?
  {
  }

  // -------------------------------------------------------------------------
  // Lookup and its specification
  // -------------------------------------------------------------------------

  predicate Brackets(reader: Reader, record: seq<Byte>, octets: seq<Byte>)
    requires |record| >= RecordLength(reader.version)
  {
    FromBe(StartIp(reader, record)) <= FromBe(octets) <= FromBe(EndIp(reader, record))
  }

  /** The first record from `i` to `last` that brackets the address decides. */
  function LinearScan(reader: Reader, start: nat, i: nat, last: nat, octets: seq<Byte>, decode: Decoder): Answer
    decreases last + 1 - i
  {
    if i > last then Absent
    else
      match RecordAt(reader, start, i)
      case None => Error
      case Some(record) =>
        assert |record| == RecordLength(reader.version);
        if Brackets(reader, record, octets) then Fetch(reader, record, decode)
        else LinearScan(reader, start, i + 1, last, octets, decode)
  }

  ghost predicate Readable(reader: Reader, start: nat, last: nat)
  {
    forall i :: 0 <= i <= last ==> RecordAt(reader, start, i).Some?
  }

  function First(reader: Reader, start: nat, i: nat): nat
    requires RecordAt(reader, start, i).Some?
  {
    FromBe(StartIp(reader, RecordAt(reader, start, i).value))
  }

  function Last(reader: Reader, start: nat, i: nat): nat
    requires RecordAt(reader, start, i).Some?
  {
    FromBe(EndIp(reader, RecordAt(reader, start, i).value))
  }

  /** The records 0 to `last` are inside the image, and their ranges are sorted and disjoint. */
  ghost predicate Sorted(reader: Reader, start: nat, last: nat)
  {
    && Readable(reader, start, last)
    && (forall i :: 0 <= i <= last ==> First(reader, start, i) <= Last(reader, start, i))
    && (forall i, j :: 0 <= i < j <= last ==> Last(reader, start, i) < First(reader, start, j))
  }

  lemma {:induction false} ScanSkips(reader: Reader, start: nat, i: nat, k: nat, last: nat, octets: seq<Byte>,
                                     decode: Decoder)
    requires Readable(reader, start, last) && i <= k <= last + 1
    requires forall j :: i <= j < k ==> !Brackets(reader, RecordAt(reader, start, j).value, octets)
    ensures LinearScan(reader, start, i, last, octets, decode) == LinearScan(reader, start, k, last, octets, decode)
    decreases k - i
  {
    hide Fetch, FromBe, DecodeIndexIp;
    if i < k {
      ScanSkips(reader, start, i + 1, k, last, octets, decode);
    }
  }

  /** The bounds of the record run an address's index entry names, if it names one. */
  function Bounds(reader: Reader, octets: seq<Byte>): Option<(nat, nat)>
    requires reader.Valid() && |octets| >= 2
  {
    IndexEntriesAreReadable(reader, octets);
    var start, end := ReadU32(reader.bytes, Point(octets)).value, ReadU32(reader.bytes, Point(octets) + 4).value;
    if start == 0 || end == 0 || end < start then None
    else Some((start, (end - start) / RecordLength(reader.version)))
  }

  /** What a search of the records 0 to `last` promises. */
  ghost predicate SearchSpec(reader: Reader, start: nat, last: nat, octets: seq<Byte>, decode: Decoder, answer: Answer)
  {
    && (answer.Region? ==>
          exists i :: 0 <= i <= last && RecordAt(reader, start, i).Some? &&
                      Brackets(reader, RecordAt(reader, start, i).value, octets) &&
                      answer == Fetch(reader, RecordAt(reader, start, i).value, decode))
    && (Sorted(reader, start, last) ==> answer == LinearScan(reader, start, 0, last, octets, decode))
  }

  ghost predicate LookupSpec(reader: Reader, octets: seq<Byte>, decode: Decoder, answer: Answer)
    requires reader.Valid()
  {
    if |octets| != reader.version.Length() then answer == Error
    else
      match Bounds(reader, octets)
      case None => answer == Absent
      case Some((start, last)) => SearchSpec(reader, start, last, octets, decode, answer)
  }

  /**
    The lookup.  Every access is inside the image and the loop ends for arbitrary bytes; any region
    comes from a record whose range brackets the address; and on sorted records the answer is that of
    a linear scan.
  */
  method Lookup(reader: Reader, octets: seq<Byte>, decode: Decoder) returns (answer: Answer)
    requires reader.Valid()
    ensures LookupSpec(reader, octets, decode, answer)
  {
    if |octets| != reader.version.Length() {
      return Error;
    }
    hide SearchSpec, FromLe, Slice, RecordAt;
    IndexEntriesAreReadable(reader, octets);
    var start := ReadU32(reader.bytes, Point(octets)).value;
    var end := ReadU32(reader.bytes, Point(octets) + 4).value;
    if start == 0 || end == 0 || end < start {
      return Absent;
    }
    answer := Search(reader, start, (end - start) / RecordLength(reader.version), octets, decode);
  }

  /** The binary search loop. */
  method Search(reader: Reader, start: nat, last: nat, octets: seq<Byte>, decode: Decoder) returns (answer: Answer)
    requires |octets| == reader.version.Length()
    ensures SearchSpec(reader, start, last, octets, decode, answer)
  {
    ghost var sorted := Sorted(reader, start, last);
    var left, right := 0, last;
    while left <= right
      invariant 0 <= left <= last + 1 && 0 <= right <= last
      invariant sorted ==> AllBefore(reader, start, left, last, octets)
      invariant sorted ==> AllAfter(reader, start, right + 1, last, octets)
      decreases right + 1 - left
    {
      var mid := (left + right) / 2;
      var slice := RecordAt(reader, start, mid);
      if slice == None {
        assert !sorted;
        return Error;
      }
      var record := slice.value;
      var startIp, endIp := StartIp(reader, record), EndIp(reader, record);
      LexIsNumeric(octets, startIp);
      LexIsNumeric(endIp, octets);
      if LexLess(octets, startIp) {
        BelowAll(reader, start, mid, last, octets);
        if mid == 0 {
          NoneBrackets(reader, start, 0, last, octets, decode);
          return Absent;
        }
        right := mid - 1;
      } else if LexLess(endIp, octets) {
        AboveAll(reader, start, mid, last, octets);
        left := mid + 1;
      } else {
        FoundIsFirst(reader, start, mid, last, octets, decode);
        return Fetch(reader, record, decode);
      }
    }
    NoneBrackets(reader, start, left, last, octets, decode);
    return Absent;
  }

  /** The records before `k` end below the address. */
  ghost predicate AllBefore(reader: Reader, start: nat, k: nat, last: nat, octets: seq<Byte>)
    requires Readable(reader, start, last) && k <= last + 1
  {
    forall i :: 0 <= i < k ==> Last(reader, start, i) < FromBe(octets)
  }

  /** The records from `k` on start above the address. */
  ghost predicate AllAfter(reader: Reader, start: nat, k: nat, last: nat, octets: seq<Byte>)
    requires Readable(reader, start, last)
  {
    forall i :: k <= i <= last ==> FromBe(octets) < First(reader, start, i)
  }

  lemma BelowAll(reader: Reader, start: nat, mid: nat, last: nat, octets: seq<Byte>)
    requires mid <= last && RecordAt(reader, start, mid).Some?
    requires FromBe(octets) < First(reader, start, mid)
    ensures Sorted(reader, start, last) ==> AllAfter(reader, start, mid, last, octets)
  {
    if Sorted(reader, start, last) {
      forall i | mid < i <= last ensures FromBe(octets) < First(reader, start, i) {
        assert First(reader, start, mid) <= Last(reader, start, mid) < First(reader, start, i);
      }
    }
  }

  lemma AboveAll(reader: Reader, start: nat, mid: nat, last: nat, octets: seq<Byte>)
    requires mid <= last && RecordAt(reader, start, mid).Some?
    requires Last(reader, start, mid) < FromBe(octets)
    ensures Sorted(reader, start, last) ==> AllBefore(reader, start, mid + 1, last, octets)
  {
    if Sorted(reader, start, last) {
      forall i | 0 <= i < mid ensures Last(reader, start, i) < FromBe(octets) {
        assert Last(reader, start, i) < First(reader, start, mid) <= Last(reader, start, mid);
      }
    }
  }

  lemma NoneBrackets(reader: Reader, start: nat, k: nat, last: nat, octets: seq<Byte>, decode: Decoder)
    requires k <= last + 1
    requires Sorted(reader, start, last) ==>
             AllBefore(reader, start, k, last, octets) && AllAfter(reader, start, k, last, octets)
    ensures Sorted(reader, start, last) ==> LinearScan(reader, start, 0, last, octets, decode) == Absent
  {
    if Sorted(reader, start, last) {
      forall i | 0 <= i <= last ensures !Brackets(reader, RecordAt(reader, start, i).value, octets) {
        if i < k {
          assert Last(reader, start, i) < FromBe(octets);
        } else {
          assert FromBe(octets) < First(reader, start, i);
        }
      }
      ScanSkips(reader, start, 0, last + 1, last, octets, decode);
    }
  }

  lemma FoundIsFirst(reader: Reader, start: nat, mid: nat, last: nat, octets: seq<Byte>, decode: Decoder)
    requires mid <= last && RecordAt(reader, start, mid).Some?
    requires Brackets(reader, RecordAt(reader, start, mid).value, octets)
    ensures Sorted(reader, start, last) ==>
              LinearScan(reader, start, 0, last, octets, decode) ==
                  Fetch(reader, RecordAt(reader, start, mid).value, decode)
  {
    if Sorted(reader, start, last) {
      forall i | 0 <= i < mid ensures !Brackets(reader, RecordAt(reader, start, i).value, octets) {
        assert Last(reader, start, i) < First(reader, start, mid);
      }
      ScanSkips(reader, start, 0, mid, last, octets, decode);
    }
  }

  /** No offset saturates on a real image: records lie where their index says. */
  lemma OffsetsAreExact(reader: Reader, octets: seq<Byte>, i: nat)
    requires reader.Valid() && |octets| == reader.version.Length() && Bounds(reader, octets).Some?
    requires i <= Bounds(reader, octets).value.1
    ensures var (start, last) := Bounds(reader, octets).value;
            AddUsize(start, MulUsize(i, RecordLength(reader.version))) ==
                start + i * RecordLength(reader.version)
  {
    IndexEntriesAreReadable(reader, octets);
    var a, b := Slice(reader.bytes, Point(octets), 4).value, Slice(reader.bytes, Point(octets) + 4, 4).value;
    FromLeBound4(a);
    FromLeBound4(b);
    var (start, last) := Bounds(reader, octets).value;
    var length := RecordLength(reader.version);
    assert i * length <= last * length <= FromLe(b) - start;
  }
}
