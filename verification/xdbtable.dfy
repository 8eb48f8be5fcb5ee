/**
  The file format of an XDB image, byte by byte, and what a lookup finds in an image that holds a
  sorted table of address ranges.
*/
module XdbTables {
  import opened Wrappers
  import opened Xdb

  /** One range of addresses and its region. */
  datatype Entry = Entry(first: nat, last: nat, text: string)

  // -------------------------------------------------------------------------
  // The format
  // -------------------------------------------------------------------------

  /** Two bytes, the lower one first. */
  function Short(bytes: seq<Byte>, o: nat): nat
    requires o + 2 <= |bytes|
  {
    (bytes[o] as int) + 0x100 * (bytes[o + 1] as int)
  }

  /** Four bytes, the lowest one first. */
  function Word(bytes: seq<Byte>, o: nat): nat
    requires o + 4 <= |bytes|
  {
    (bytes[o] as int) + 0x100 * (bytes[o + 1] as int) +
    0x1_0000 * (bytes[o + 2] as int) + 0x100_0000 * (bytes[o + 3] as int)
  }

  /** `n` bytes, the highest one first. */
  function Network(bytes: seq<Byte>, o: nat, n: nat): nat
    requires o + n <= |bytes|
  {
    if n == 0 then 0 else 0x100 * Network(bytes, o, n - 1) + (bytes[o + n - 1] as int)
  }

  /** IPv4 addresses of the index have their lowest byte first, IPv6 addresses their highest. */
  function Address(version: IpVersion, bytes: seq<Byte>, o: nat): nat
    requires o + (if version == V4 then 4 else 16) <= |bytes|
  {
    if version == V4 then Word(bytes, o) else Network(bytes, o, 16)
  }

  /** Start and end address, the length of the text, and where the text is. */
  function RecordSize(version: IpVersion): nat {
    if version == V4 then 14 else 38
  }

  ghost predicate HoldsRecord(reader: Reader, decode: Decoder, o: nat, entry: Entry) {
    var version, bytes, width := reader.version, reader.bytes, if reader.version == V4 then 4 else 16;
    && o + RecordSize(version) <= |bytes|
    && Address(version, bytes, o) == entry.first
    && Address(version, bytes, o + width) == entry.last
    && var length, offset := Short(bytes, o + 2 * width), Word(bytes, o + 2 * width + 2);
       offset + length <= |bytes| && decode(bytes[offset..offset + length]) == Some(entry.text)
  }

  ghost predicate HoldsRecords(reader: Reader, decode: Decoder, start: nat, entries: seq<Entry>) {
    forall i :: 0 <= i < |entries| ==>
      HoldsRecord(reader, decode, start + i * RecordSize(reader.version), entries[i])
  }

  /** The first two bytes of an address. */
  function Prefix(octets: seq<Byte>): nat
    requires |octets| >= 2
  {
    0x100 * (octets[0] as int) + (octets[1] as int)
  }

  /**
    The entries of the addresses whose first two bytes make up `prefix`: the index at byte 256 has, for
    each prefix, the offsets of its first and of its last record.
  */
  ghost predicate HoldsEntries(reader: Reader, decode: Decoder, prefix: nat, entries: seq<Entry>)
    requires reader.Valid() && prefix < 0x1_0000
  {
    var start, end := Word(reader.bytes, 256 + 8 * prefix), Word(reader.bytes, 260 + 8 * prefix);
    if start == 0 || end == 0 || end < start then entries == []
    else
      && |entries| == (end - start) / RecordSize(reader.version) + 1
      && HoldsRecords(reader, decode, start, entries)
  }

  /** The ranges are proper, ascending and disjoint. */
  ghost predicate IsSorted(entries: seq<Entry>) {
    && (forall i :: 0 <= i < |entries| ==> entries[i].first <= entries[i].last)
    && (forall i, j :: 0 <= i < j < |entries| ==> entries[i].last < entries[j].first)
  }

  /** The entry whose range contains the address decides. */
  ghost predicate Answers(entries: seq<Entry>, address: nat, answer: Answer) {
    && (forall i :: 0 <= i < |entries| && entries[i].first <= address <= entries[i].last ==>
          answer == Region(entries[i].text))
    && ((forall i :: 0 <= i < |entries| ==> !(entries[i].first <= address <= entries[i].last)) ==> answer == Absent)
  }

  // -------------------------------------------------------------------------
  // Reading the format
  // -------------------------------------------------------------------------

  lemma ShortIs(bytes: seq<Byte>, o: nat)
    requires o + 2 <= |bytes|
    ensures FromLe(bytes[o..o + 2]) == Short(bytes, o)
  {
    TwoBytes(bytes[o..o + 2]);
  }

  lemma WordIs(bytes: seq<Byte>, o: nat)
    requires o + 4 <= |bytes|
    ensures FromLe(bytes[o..o + 4]) == Word(bytes, o)
  {
    var s := bytes[o..o + 4];
    assert s[1..][1..] == s[2..] && s[2..][1..] == s[3..] && s[3..][1..] == [];
    assert FromLe(s[3..]) == s[3];
    assert FromLe(s[2..]) == s[2] + 256 * FromLe(s[3..]);
    assert FromLe(s[1..]) == s[1] + 256 * FromLe(s[2..]);
  }

  lemma {:induction false} NetworkIs(bytes: seq<Byte>, o: nat, n: nat)
    requires o + n <= |bytes|
    ensures FromBe(bytes[o..o + n]) == Network(bytes, o, n)
  {
    if n > 0 {
      var s := bytes[o..o + n];
      assert s[..n - 1] == bytes[o..o + n - 1];
      NetworkIs(bytes, o, n - 1);
    }
  }

  lemma AddressIs(version: IpVersion, bytes: seq<Byte>, o: nat)
    requires o + version.Length() <= |bytes|
    ensures FromBe(DecodeIndexIp(bytes[o..o + version.Length()], version)) == Address(version, bytes, o)
  {
    if version == V4 {
      ReversedIsLittleEndian(bytes[o..o + 4]);
      WordIs(bytes, o);
    } else {
      NetworkIs(bytes, o, 16);
    }
  }

  lemma SliceOfSlice(bytes: seq<Byte>, o: nat, n: nat, i: nat, j: nat)
    requires o + n <= |bytes| && i <= j <= n
    ensures bytes[o..o + n][i..j] == bytes[o + i..o + j]
  {
    var a, b := bytes[o..o + n][i..j], bytes[o + i..o + j];
    assert forall k :: 0 <= k < j - i ==> a[k] == b[k];
  }

  /** What the code reads of a record is what the format says. */
  lemma RecordIs(reader: Reader, decode: Decoder, start: nat, i: nat, entry: Entry)
    requires HoldsRecord(reader, decode, start + i * RecordSize(reader.version), entry)
    ensures var record := RecordAt(reader, start, i);
            && record.Some?
            && FromBe(StartIp(reader, record.value)) == entry.first
            && FromBe(EndIp(reader, record.value)) == entry.last
            && Fetch(reader, record.value, decode) == Region(entry.text)
  {
    hide FromLe, FromBe, DecodeIndexIp, Address, Word, Short;
    var version, bytes := reader.version, reader.bytes;
    var size, width := RecordSize(version), version.Length();
    var o := start + i * size;
    assert size == RecordLength(version) == 2 * width + 6;
    assert AddUsize(start, MulUsize(i, size)) == o;
    var record := bytes[o..o + size];
    assert RecordAt(reader, start, i) == Some(record);
    SliceOfSlice(bytes, o, size, 0, width);
    SliceOfSlice(bytes, o, size, width, 2 * width);
    SliceOfSlice(bytes, o, size, 2 * width, 2 * width + 2);
    SliceOfSlice(bytes, o, size, 2 * width + 2, 2 * width + 6);
    assert record[..width] == record[0..width];
    AddressIs(version, bytes, o);
    AddressIs(version, bytes, o + width);
    ShortIs(bytes, o + 2 * width);
    WordIs(bytes, o + 2 * width + 2);
  }

  /** Where the code looks for the entries of an address is where the format has them. */
  lemma IndexIs(reader: Reader, octets: seq<Byte>)
    requires reader.Valid() && |octets| == reader.version.Length()
    ensures var prefix := Prefix(octets);
            && prefix < 0x1_0000
            && ReadU32(reader.bytes, Point(octets)) == Some(Word(reader.bytes, 256 + 8 * prefix))
            && ReadU32(reader.bytes, Point(octets) + 4) == Some(Word(reader.bytes, 260 + 8 * prefix))
  {
    hide FromLe, Word;
    var prefix := Prefix(octets);
    assert Point(octets) == 256 + 8 * prefix;
    WordIs(reader.bytes, 256 + 8 * prefix);
    WordIs(reader.bytes, 260 + 8 * prefix);
  }

  /**
    An image is accepted exactly when it has the header and the whole index, and its first bytes name
    structure 3, index policy 1, one of the families, and pointers of four bytes.
  */
  lemma AcceptedExactly(bytes: Image)
    ensures FromBytes(bytes).Some? <==>
            && |bytes| >= 524544
            && bytes[0] == 3 && bytes[1] == 0 && bytes[2] == 1 && bytes[3] == 0
            && (bytes[16] == 4 || bytes[16] == 6) && bytes[17] == 0 && bytes[18] == 4 && bytes[19] == 0
    ensures FromBytes(bytes).Some? ==> FromBytes(bytes).value == Reader(bytes, if bytes[16] == 4 then V4 else V6)
  {
    hide FromBytes;
    if |bytes| >= 20 {
      HeaderBytes(bytes);
    }
    if |bytes| >= 524544 && bytes[16] == 4 {
      assert HasHeader(bytes, V4) ==> FromBytes(bytes).Some?;
    } else if |bytes| >= 524544 {
      assert HasHeader(bytes, V6) ==> FromBytes(bytes).Some?;
    }
  }

  // -------------------------------------------------------------------------
  // The lookup
  // -------------------------------------------------------------------------

  /** The records of a sorted table are what the search needs. */
  lemma TableIsSorted(reader: Reader, decode: Decoder, start: nat, entries: seq<Entry>)
    requires entries != [] && IsSorted(entries) && HoldsRecords(reader, decode, start, entries)
    ensures Sorted(reader, start, |entries| - 1)
  {
    hide RecordAt, HoldsRecord, Fetch, RecordSize, FromBe, StartIp, EndIp;
    forall i | 0 <= i < |entries|
      ensures RecordAt(reader, start, i).Some?
      ensures First(reader, start, i) == entries[i].first && Last(reader, start, i) == entries[i].last
    {
      RecordIs(reader, decode, start, i, entries[i]);
    }
  }

  lemma BracketsAre(reader: Reader, decode: Decoder, start: nat, entries: seq<Entry>, octets: seq<Byte>, i: nat)
    requires i < |entries| && IsSorted(entries) && HoldsRecords(reader, decode, start, entries)
    ensures RecordAt(reader, start, i).Some?
    ensures Brackets(reader, RecordAt(reader, start, i).value, octets) <==>
            entries[i].first <= FromBe(octets) <= entries[i].last
    ensures Fetch(reader, RecordAt(reader, start, i).value, decode) == Region(entries[i].text)
  {
    hide HoldsRecord, Fetch, RecordSize, FromBe, StartIp, EndIp;
    RecordIs(reader, decode, start, i, entries[i]);
  }

  /** The ranges of a sorted table are disjoint, so one that contains the address decides alone. */
  lemma AnswersAt(entries: seq<Entry>, address: nat, i: nat)
    requires i < |entries| && IsSorted(entries) && entries[i].first <= address <= entries[i].last
    ensures Answers(entries, address, Region(entries[i].text))
  {
    forall j | 0 <= j < |entries| && j != i ensures !(entries[j].first <= address <= entries[j].last) {
      assert if j < i then entries[j].last < entries[i].first else entries[i].last < entries[j].first;
    }
  }

  lemma ScanFinds(reader: Reader, decode: Decoder, start: nat, entries: seq<Entry>, octets: seq<Byte>, i: nat)
    requires i < |entries| && IsSorted(entries) && HoldsRecords(reader, decode, start, entries)
    requires entries[i].first <= FromBe(octets) <= entries[i].last
    ensures Answers(entries, FromBe(octets), LinearScan(reader, start, 0, |entries| - 1, octets, decode))
  {
    hide HoldsRecords, RecordAt, Fetch, LinearScan, FromBe, Brackets, Sorted, IsSorted, Answers;
    assert Sorted(reader, start, |entries| - 1) by {
      TableIsSorted(reader, decode, start, entries);
    }
    BracketsAre(reader, decode, start, entries, octets, i);
    FoundIsFirst(reader, start, i, |entries| - 1, octets, decode);
    AnswersAt(entries, FromBe(octets), i);
  }

  lemma ScanMisses(reader: Reader, decode: Decoder, start: nat, entries: seq<Entry>, octets: seq<Byte>)
    requires entries != [] && IsSorted(entries) && HoldsRecords(reader, decode, start, entries)
    requires forall i :: 0 <= i < |entries| ==> !(entries[i].first <= FromBe(octets) <= entries[i].last)
    ensures LinearScan(reader, start, 0, |entries| - 1, octets, decode) == Absent
  {
    hide HoldsRecords, RecordAt, Fetch, LinearScan, FromBe, Brackets, IsSorted;
    var last := |entries| - 1;
    forall i | 0 <= i <= last
      ensures RecordAt(reader, start, i).Some? && !Brackets(reader, RecordAt(reader, start, i).value, octets)
    {
      BracketsAre(reader, decode, start, entries, octets, i);
    }
    ScanSkips(reader, start, 0, last + 1, last, octets, decode);
    ScanEnds(reader, start, last, octets, decode);
  }

  lemma ScanEnds(reader: Reader, start: nat, last: nat, octets: seq<Byte>, decode: Decoder)
    ensures LinearScan(reader, start, last + 1, last, octets, decode) == Absent
  {
  }

  /**
    In an image that holds, for the first two bytes of the address, a sorted table of ranges, a lookup
    returns the text of the range that contains the address, and nothing if there is none.
  */
  lemma LookupAnswers(reader: Reader, octets: seq<Byte>, decode: Decoder, entries: seq<Entry>, answer: Answer)
    requires reader.Valid() && |octets| == (if reader.version == V4 then 4 else 16)
    requires HoldsEntries(reader, decode, Prefix(octets), entries) && IsSorted(entries)
    requires LookupSpec(reader, octets, decode, answer)
    ensures Answers(entries, Network(octets, 0, |octets|), answer)
  {
    hide FromLe, FromBe, HoldsRecords, Word, Network, Prefix, LinearScan, ReadU32, Point, IsSorted, Sorted, Fetch;
    IndexIs(reader, octets);
    assert octets[0..|octets|] == octets;
    NetworkIs(octets, 0, |octets|);
    var prefix := Prefix(octets);
    var start, end := Word(reader.bytes, 256 + 8 * prefix), Word(reader.bytes, 260 + 8 * prefix);
    if start == 0 || end == 0 || end < start {
      NothingAnswers(Network(octets, 0, |octets|));
    } else {
      assert RecordSize(reader.version) == RecordLength(reader.version);
      assert Sorted(reader, start, |entries| - 1) by {
        TableIsSorted(reader, decode, start, entries);
      }
      if i :| 0 <= i < |entries| && entries[i].first <= FromBe(octets) <= entries[i].last {
        ScanFinds(reader, decode, start, entries, octets, i);
      } else {
        ScanMisses(reader, decode, start, entries, octets);
        assert Answers(entries, FromBe(octets), Absent);
      }
    }
  }

  lemma NothingAnswers(address: nat)
    ensures Answers([], address, Absent)
  {
  }
}
