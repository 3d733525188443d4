/**
 The pci.ids reader of lfdk/lib_pci_scan.c: a character stream read line by line into a fixed buffer,
 and the lookup of a vendor and a device name.
 */
module NameDatabase {
  import opened Bits

  const MAX_READBUF: int := 512
  const MAX_PCINAME: int := 75
  const NUL: char := 0 as char

  // ---------- what a line means ----------

  /** What ReadLine returns: -1 for a line without an entry, -2 at the end of the file, otherwise the
      number of tabs, with the text in read_buffer. */
  datatype Line = Skip | EndOfFile | Entry(tabs: nat, text: string)

  function Tabs(line: string): nat {
    if line == [] then 0 else Tabs(line[..|line| - 1]) + (if line[|line| - 1] == '\t' then 1 else 0)
  }

  function Text(line: string): (t: string)
    ensures |t| <= |line|
  {
    if line == [] then []
    else Text(line[..|line| - 1]) + (if line[|line| - 1] == '\t' then [] else [line[|line| - 1]])
  }

  /** A '#' anywhere makes the line a comment; strlen of the buffer sees no text if the first character
      is a NUL. */
  function Classify(line: string): Line {
    if '#' in line || Text(line) == [] || Text(line)[0] == NUL then Skip else Entry(Tabs(line), Text(line))
  }

  /** Index of the first newline, or the length. */
  function LineEnd(data: string): (n: nat)
    ensures n <= |data|
  {
    if data == [] || data[0] == '\n' then 0 else LineEnd(data[1..]) + 1
  }

  /** One call of ReadLine on what is left of the file: the result, and what is left afterwards. An
      unterminated last line yields no entry; a comment cut off by the end is a line of its own. */
  function NextLine(data: string): (r: (Line, string))
    ensures r.0 != EndOfFile ==> |r.1| < |data|
  {
    var n := LineEnd(data);
    if n < |data| then (Classify(data[..n]), data[n + 1..])
    else if '#' in data then (Skip, [])
    else (EndOfFile, [])
  }

  /** All results up to the end of the file. */
  function AllLines(data: string): seq<Line>
    decreases |data|
  {
    var (line, rest) := NextLine(data);
    if line == EndOfFile then [] else [line] + AllLines(rest)
  }

  // ---------- what fits into the buffer ----------

  /** Index of the first newline or '#', or the length: nothing from there on is stored. */
  function StoredEnd(data: string): (n: nat)
    ensures n <= |data|
    ensures forall i :: 0 <= i < n ==> data[i] != '\n' && data[i] != '#'
  {
    if data == [] || data[0] == '\n' || data[0] == '#' then 0 else StoredEnd(data[1..]) + 1
  }

  /** What one call of ReadLine has put into read_buffer by the end of the line, the first '#' or the end of
      the file. */
  function Stored(data: string): string {
    Text(data[..StoredEnd(data)])
  }

  /** The indices of read_buffer it stores to, from index i on. */
  function StoreIndices(data: string, i: nat): seq<nat> {
    if data == [] || data[0] == '\n' || data[0] == '#' then []
    else if data[0] == '\t' then StoreIndices(data[1..], i)
    else [i] + StoreIndices(data[1..], i + 1)
  }

  lemma {:induction false} TextCons(c: char, line: string)
    ensures Text([c] + line) == (if c == '\t' then [] else [c]) + Text(line)
  {
    if line == [] {
      assert [c] + line == [] + [c];
      TextSnoc([], c);
    } else {
      var init, last := line[..|line| - 1], line[|line| - 1];
      TextCons(c, init);
      assert [c] + line == ([c] + init) + [last] && line == init + [last];
      TextSnoc([c] + init, last);
    }
  }

  lemma {:induction false} StoresInOrder(data: string, i: nat)
    ensures var js := StoreIndices(data, i);
            |js| == |Stored(data)| && forall j :: 0 <= j < |js| ==> js[j] == i + j
  {
    if data != [] && data[0] != '\n' && data[0] != '#' {
      var n := StoredEnd(data[1..]);
      assert data[..n + 1] == [data[0]] + data[1..][..n];
      TextCons(data[0], data[1..][..n]);
      hide Text;
      StoresInOrder(data[1..], if data[0] == '\t' then i else i + 1);
    }
  }

  /** No store is checked. They all hit read_buffer if and only if the text before the first '#' or newline,
      without its tabs, has at most 512 characters: the rest of a comment does not matter. */
  lemma StoresFitIff(data: string)
    ensures (forall k :: k in StoreIndices(data, 0) ==> k < MAX_READBUF) <==> |Stored(data)| <= MAX_READBUF
  {
    hide Stored, StoreIndices;
    StoresInOrder(data, 0);
    var js := StoreIndices(data, 0);
    if |js| > MAX_READBUF {
      assert js[MAX_READBUF] in js;
    }
  }

  /** All of one call stays in read_buffer: the stores, and at a newline strlen. */
  predicate FitsBuffer(data: string) {
    && |Stored(data)| <= MAX_READBUF
    && (StoredEnd(data) < |data| && data[StoredEnd(data)] == '\n'
        ==> |Stored(data)| < MAX_READBUF || NUL in Stored(data))
  }

  lemma {:induction false} StoredEndAfter(seen: string, tail: string)
    requires '\n' !in seen && '#' !in seen
    ensures StoredEnd(seen + tail) == |seen| + StoredEnd(tail)
  {
    if seen == [] {
      assert seen + tail == tail;
    } else {
      assert (seen + tail)[1..] == seen[1..] + tail;
      StoredEndAfter(seen[1..], tail);
    }
  }

  lemma {:induction false} TextGrows(line: string, k: nat)
    requires k <= |line|
    ensures |Text(line[..k])| <= |Text(line)|
    decreases |line|
  {
    if k == |line| {
      assert line[..k] == line;
    } else {
      assert line[..|line| - 1][..k] == line[..k];
      TextGrows(line[..|line| - 1], k);
    }
  }

  lemma {:induction false} LineEndAfter(seen: string, tail: string)
    requires '\n' !in seen
    ensures LineEnd(seen + tail) == |seen| + LineEnd(tail)
  {
    if seen == [] {
      assert seen + tail == tail;
    } else {
      assert (seen + tail)[1..] == seen[1..] + tail;
      LineEndAfter(seen[1..], tail);
    }
  }

  lemma TextSnoc(seen: string, c: char)
    ensures Text(seen + [c]) == Text(seen) + (if c == '\t' then [] else [c])
    ensures Tabs(seen + [c]) == Tabs(seen) + (if c == '\t' then 1 else 0)
  {
    assert (seen + [c])[..|seen|] == seen;
  }

  // ---------- entries and lookup ----------

  function HexChar(d: int): char
    requires 0 <= d < 16
  {
    if d < 10 then ('0' as int + d) as char else ('a' as int + (d - 10)) as char
  }

  /** "%4.4x" of a 16-bit id */
  function Hex4(id: uint16): (s: string)
    ensures |s| == 4
  {
    [HexChar(id / 0x1000), HexChar(id / 0x100 % 16), HexChar(id / 16 % 16), HexChar(id % 16)]
  }

  /** The value of a digit of pci.ids by its character code, -1 for any other character. */
  function DigitValue(c: char): int {
    var code := c as int;
    if 48 <= code <= 57 then code - 48 else if 97 <= code <= 102 then code - 87 else -1
  }

  /** The text starts with id: four digits, decimal or lower-case letters, read left to right to base 16. */
  predicate Matches(text: string, id: uint16) {
    && |text| >= 4 && (forall i :: 0 <= i < 4 ==> DigitValue(text[i]) >= 0)
    && id == 0x1000 * DigitValue(text[0]) + 0x100 * DigitValue(text[1]) + 16 * DigitValue(text[2]) + DigitValue(text[3])
  }

  function UntilNul(s: string): (t: string)
    ensures t <= s
  {
    if s == [] || s[0] == NUL then [] else [s[0]] + UntilNul(s[1..])
  }

  function Cut(s: string): string {
    if |s| <= MAX_PCINAME then s else s[..MAX_PCINAME]
  }

  /** What strncpy takes from read_buffer + 6. */
  function NameIn(text: string): string {
    Cut(UntilNul(if |text| >= 6 then text[6..] else []))
  }

  /** A name is what follows the first six characters, up to a NUL, and at most 75 characters of it. */
  lemma NameIsText(text: string)
    ensures var name := NameIn(text);
            && |name| <= 75 && NUL !in name
            && (|text| >= 6 ==> name <= text[6..])
            && (|text| < 6 ==> name == "")
            && (|name| < 75 && |text| > 6 + |name| ==> text[6 + |name|] == NUL)
  {
    UntilNulStops(if |text| >= 6 then text[6..] else []);
    hide UntilNul;
  }

  lemma {:induction false} UntilNulStops(s: string)
    ensures NUL !in UntilNul(s) && (|UntilNul(s)| < |s| ==> s[|UntilNul(s)|] == NUL)
  {
    if s != [] && s[0] != NUL {
      UntilNulStops(s[1..]);
    }
  }

  /** The variables of the lookup loop. */
  datatype Search = Search(venText: string, devText: string, findVen: bool, done: bool)

  function Consider(s: Search, line: Line, ven: uint16, dev: uint16): Search {
    match line
    case Entry(0, text) => if Matches(text, ven) then s.(venText := NameIn(text), findVen := true) else s
    case Entry(1, text) => if s.findVen && Matches(text, dev) then s.(devText := NameIn(text), done := true) else s
    case _ => s
  }

  function Lookup(s: Search, lines: seq<Line>, ven: uint16, dev: uint16): Search
    decreases |lines|
  {
    if lines == [] || s.done then s else Lookup(Consider(s, lines[0], ven, dev), lines[1..], ven, dev)
  }

  /** Every line the lookup reads fits; what follows the device it finds is not read. */
  predicate FitsWhileRead(s: Search, data: string, ven: uint16, dev: uint16)
    decreases |data|
  {
    var (line, rest) := NextLine(data);
    !s.done ==> FitsBuffer(data) && (line != EndOfFile ==> FitsWhileRead(Consider(s, line, ven, dev), rest, ven, dev))
  }

  // ---------- the lookup finds the device in the vendor's own block ----------

  /** No line of a vendor with that id. */
  predicate NoVendor(lines: seq<Line>, ven: uint16) {
    forall i :: 0 <= i < |lines| && lines[i].Entry? && lines[i].tabs == 0 ==> !Matches(lines[i].text, ven)
  }

  predicate IsDevice(line: Line, dev: uint16) {
    line.Entry? && line.tabs == 1 && Matches(line.text, dev)
  }

  lemma {:induction false} NothingBeforeVendor(s: Search, pre: seq<Line>, rest: seq<Line>, ven: uint16, dev: uint16)
    requires NoVendor(pre, ven) && !s.findVen && !s.done
    ensures Lookup(s, pre + rest, ven, dev) == Lookup(s, rest, ven, dev)
  {
    if pre == [] {
      assert pre + rest == rest;
    } else {
      assert (pre + rest)[1..] == pre[1..] + rest && (pre + rest)[0] == pre[0];
      hide Matches, NameIn;
      assert Consider(s, pre[0], ven, dev) == s;
      NothingBeforeVendor(s, pre[1..], rest, ven, dev);
    }
  }

  lemma {:induction false} FirstMatchInBlock(s: Search, block: seq<Line>, rest: seq<Line>, k: nat,
                                             ven: uint16, dev: uint16)
    requires s.findVen && !s.done && k < |block| && IsDevice(block[k], dev)
    requires forall i :: 0 <= i < k ==> !IsDevice(block[i], dev) && (block[i].Entry? ==> block[i].tabs != 0)
    ensures Lookup(s, block + rest, ven, dev) == s.(devText := NameIn(block[k].text), done := true)
  {
    hide Matches, NameIn;
    assert (block + rest)[0] == block[0] && (block + rest)[1..] == block[1..] + rest;
    var s1 := Consider(s, block[0], ven, dev);
    if k == 0 {
      assert Lookup(s1, (block + rest)[1..], ven, dev) == s1;
    } else {
      assert s1 == s;
      FirstMatchInBlock(s, block[1..], rest, k - 1, ven, dev);
    }
  }

  /** When the vendor's line is the first one with its id and its own block lists the device, the lookup
      returns that vendor's name and the first matching device name of that block, whatever other
      vendors' blocks list. */
  lemma LookupFindsOwnDevice(pre: seq<Line>, text: string, block: seq<Line>, rest: seq<Line>, k: nat,
                             ven: uint16, dev: uint16, venBefore: string, devBefore: string)
    requires NoVendor(pre, ven) && Matches(text, ven) && k < |block| && IsDevice(block[k], dev)
    requires forall i :: 0 <= i < k ==> !IsDevice(block[i], dev) && (block[i].Entry? ==> block[i].tabs != 0)
    ensures Lookup(Search(venBefore, devBefore, false, false), pre + ([Entry(0, text)] + (block + rest)), ven, dev)
            == Search(NameIn(text), NameIn(block[k].text), true, true)
  {
    hide NameIn;
    var s := Search(venBefore, devBefore, false, false);
    var tail := [Entry(0, text)] + (block + rest);
    NothingBeforeVendor(s, pre, tail, ven, dev);
    assert tail[1..] == block + rest;
    var s1 := Consider(s, Entry(0, text), ven, dev);
    FirstMatchInBlock(s1, block, rest, k, ven, dev);
  }

  predicate IsVendor(line: Line, ven: uint16) {
    line.Entry? && line.tabs == 0 && Matches(line.text, ven)
  }

  /** findven is never cleared, so once the vendor is seen any later vendor's block can supply the device. */
  lemma {:induction false} DoneAfterVendorIff(s: Search, lines: seq<Line>, ven: uint16, dev: uint16)
    requires s.findVen && !s.done
    ensures Lookup(s, lines, ven, dev).done <==> exists j :: 0 <= j < |lines| && IsDevice(lines[j], dev)
    decreases |lines|
  {
    hide Matches, NameIn;
    if lines != [] {
      var s1 := Consider(s, lines[0], ven, dev);
      if IsDevice(lines[0], dev) {
        assert s1.done;
      } else {
        DoneAfterVendorIff(s1, lines[1..], ven, dev);
        assert forall j :: 1 <= j < |lines| ==> lines[j] == lines[1..][j - 1];
        assert (exists j :: 0 <= j < |lines| && IsDevice(lines[j], dev))
               ==> exists j :: 0 <= j < |lines[1..]| && IsDevice(lines[1..][j], dev) by {
          if j :| 0 <= j < |lines| && IsDevice(lines[j], dev) {
            assert IsDevice(lines[1..][j - 1], dev);
          }
        }
      }
    }
  }

  /** A device name is returned if and only if some line of the vendor precedes some line of the device. */
  lemma {:induction false} LookupDoneIff(s: Search, lines: seq<Line>, ven: uint16, dev: uint16)
    requires !s.findVen && !s.done
    ensures Lookup(s, lines, ven, dev).done
            <==> exists i, j :: 0 <= i < j < |lines| && IsVendor(lines[i], ven) && IsDevice(lines[j], dev)
    decreases |lines|
  {
    hide Matches, NameIn;
    if lines != [] {
      var s1 := Consider(s, lines[0], ven, dev);
      assert forall j :: 1 <= j < |lines| ==> lines[j] == lines[1..][j - 1];
      assert forall j :: 0 <= j < |lines[1..]| ==> lines[1..][j] == lines[j + 1];
      if IsVendor(lines[0], ven) {
        DoneAfterVendorIff(s1, lines[1..], ven, dev);
      } else {
        assert s1 == s;
        LookupDoneIff(s, lines[1..], ven, dev);
        ShiftPairs(lines, ven, dev);
      }
    }
  }

  lemma ShiftPairs(lines: seq<Line>, ven: uint16, dev: uint16)
    requires lines != [] && !IsVendor(lines[0], ven)
    ensures (exists i, j :: 0 <= i < j < |lines| && IsVendor(lines[i], ven) && IsDevice(lines[j], dev))
            <==> exists i, j :: 0 <= i < j < |lines[1..]|
                                && IsVendor(lines[1..][i], ven) && IsDevice(lines[1..][j], dev)
  {
    hide IsVendor, IsDevice;
    if i, j :| 0 <= i < j < |lines| && IsVendor(lines[i], ven) && IsDevice(lines[j], dev) {
      assert IsVendor(lines[1..][i - 1], ven) && IsDevice(lines[1..][j - 1], dev);
    }
    if i, j :| 0 <= i < j < |lines[1..]| && IsVendor(lines[1..][i], ven) && IsDevice(lines[1..][j], dev) {
      assert IsVendor(lines[i + 1], ven) && IsDevice(lines[j + 1], dev);
    }
  }

  // ---------- printing a database and looking it up ----------

  datatype DeviceRecord = DeviceRecord(id: uint16, name: string)
  datatype VendorRecord = VendorRecord(id: uint16, name: string, devices: seq<DeviceRecord>)

  predicate PrintableName(name: string) {
    '\n' !in name && '\t' !in name && '#' !in name && NUL !in name
  }

  predicate Printable(db: seq<VendorRecord>) {
    forall v :: v in db ==> PrintableName(v.name) && forall d :: d in v.devices ==> PrintableName(d.name)
  }

  function RecordText(id: uint16, name: string): string {
    Hex4(id) + "  " + name
  }

  function PrintDevices(ds: seq<DeviceRecord>): string {
    if ds == [] then [] else "\t" + RecordText(ds[0].id, ds[0].name) + "\n" + PrintDevices(ds[1..])
  }

  function PrintDb(db: seq<VendorRecord>): string {
    if db == [] then [] else RecordText(db[0].id, db[0].name) + "\n" + PrintDevices(db[0].devices) + PrintDb(db[1..])
  }

  function DeviceLines(ds: seq<DeviceRecord>): (lines: seq<Line>)
    ensures |lines| == |ds| && forall i :: 0 <= i < |ds| ==> lines[i] == Entry(1, RecordText(ds[i].id, ds[i].name))
  {
    if ds == [] then [] else [Entry(1, RecordText(ds[0].id, ds[0].name))] + DeviceLines(ds[1..])
  }

  function DbLines(db: seq<VendorRecord>): seq<Line> {
    if db == [] then []
    else [Entry(0, RecordText(db[0].id, db[0].name))] + (DeviceLines(db[0].devices) + DbLines(db[1..]))
  }

  lemma PlainHex(id: uint16)
    ensures PrintableName(Hex4(id))
  {}

  lemma {:induction false} PlainText(line: string)
    requires '\t' !in line
    ensures Text(line) == line && Tabs(line) == 0
  {
    if line != [] {
      PlainText(line[..|line| - 1]);
      assert line == line[..|line| - 1] + [line[|line| - 1]];
    }
  }

  lemma {:induction false} TabbedText(line: string)
    requires '\t' !in line
    ensures Text("\t" + line) == line && Tabs("\t" + line) == 1
  {
    if line == [] {
      assert "\t" + line == [] + ['\t'];
      TextSnoc([], '\t');
    } else {
      var init, c := line[..|line| - 1], line[|line| - 1];
      TabbedText(init);
      assert "\t" + line == ("\t" + init) + [c];
      TextSnoc("\t" + init, c);
      assert line == init + [c];
    }
  }

  lemma RecordIsPlain(id: uint16, name: string)
    requires PrintableName(name)
    ensures PrintableName(RecordText(id, name))
  {
    PlainHex(id);
    hide Hex4;
  }

  lemma RecordClasses(id: uint16, name: string)
    requires PrintableName(name)
    ensures Classify(RecordText(id, name)) == Entry(0, RecordText(id, name))
    ensures Classify("\t" + RecordText(id, name)) == Entry(1, RecordText(id, name))
  {
    var t := RecordText(id, name);
    RecordIsPlain(id, name);
    PlainText(t);
    TabbedText(t);
    assert t[0] in t;
  }

  lemma FirstLine(line: string, data: string)
    requires '\n' !in line && Classify(line).Entry?
    ensures AllLines(line + "\n" + data) == [Classify(line)] + AllLines(data)
  {
    hide Classify;
    var all := line + "\n" + data;
    assert all == line + ("\n" + data);
    LineEndAfter(line, "\n" + data);
    assert all[..|line|] == line && all[|line| + 1..] == data;
  }

  lemma Regroup<T>(a: seq<T>, b: seq<T>, c: seq<T>, d: seq<T>)
    ensures a + b + c + d == a + b + (c + d)
  {}

  lemma {:induction false} ReadDevices(ds: seq<DeviceRecord>, data: string)
    requires forall d :: d in ds ==> PrintableName(d.name)
    ensures AllLines(PrintDevices(ds) + data) == DeviceLines(ds) + AllLines(data)
  {
    hide AllLines, RecordText, Classify, PrintableName;
    if ds == [] {
      assert PrintDevices(ds) + data == data;
    } else {
      assert ds[0] in ds;
      var t := RecordText(ds[0].id, ds[0].name);
      TabbedRecord(ds[0].id, ds[0].name);
      Regroup("\t" + t, "\n", PrintDevices(ds[1..]), data);
      FirstLine("\t" + t, PrintDevices(ds[1..]) + data);
      ReadDevices(ds[1..], data);
      hide *;
      assert [Entry(1, t)] + DeviceLines(ds[1..]) + AllLines(data)
             == [Entry(1, t)] + (DeviceLines(ds[1..]) + AllLines(data));
    }
  }

  lemma TabbedRecord(id: uint16, name: string)
    requires PrintableName(name)
    ensures '\n' !in "\t" + RecordText(id, name)
    ensures Classify("\t" + RecordText(id, name)) == Entry(1, RecordText(id, name))
  {
    RecordClasses(id, name);
    RecordIsPlain(id, name);
  }

  /** Reading back a printed database gives its lines. */
  lemma {:induction false} ReadPrinted(db: seq<VendorRecord>)
    requires Printable(db)
    ensures AllLines(PrintDb(db)) == DbLines(db)
  {
    if db == [] {
      assert LineEnd([]) == 0;
    } else {
      hide AllLines, RecordText, DeviceLines, PrintDevices, Classify, PrintableName;
      var v := db[0];
      assert v in db;
      var t := RecordText(v.id, v.name);
      PlainRecord(v.id, v.name);
      Regroup(t, "\n", PrintDevices(v.devices), PrintDb(db[1..]));
      FirstLine(t, PrintDevices(v.devices) + PrintDb(db[1..]));
      ReadDevices(v.devices, PrintDb(db[1..]));
      ReadPrinted(db[1..]);
    }
  }

  lemma PlainRecord(id: uint16, name: string)
    requires PrintableName(name)
    ensures '\n' !in RecordText(id, name)
    ensures Classify(RecordText(id, name)) == Entry(0, RecordText(id, name))
  {
    RecordClasses(id, name);
    RecordIsPlain(id, name);
  }

  predicate UniqueVendors(db: seq<VendorRecord>) {
    forall i, j :: 0 <= i < j < |db| ==> db[i].id != db[j].id
  }

  /** The four hex digits of an id, most significant first, are its digits to base 16. */
  lemma FourDigits(id: uint16)
    ensures id == 0x1000 * (id / 0x1000) + 0x100 * (id / 0x100 % 16) + 16 * (id / 16 % 16) + id % 16
    ensures 0 <= id / 0x1000 < 16
  {
    var q := id / 16;
    Divided(id, 0x100, q / 16, 16 * (q % 16) + id % 16);
    Divided(id, 0x1000, q / 16 / 16, 0x100 * (q / 16 % 16) + 16 * (q % 16) + id % 16);
  }

  lemma DigitOfChar(d: int)
    requires 0 <= d < 16
    ensures DigitValue(HexChar(d)) == d
  {}

  lemma CharOfDigit(c: char)
    ensures DigitValue(c) < 16
    ensures DigitValue(c) >= 0 ==> HexChar(DigitValue(c)) == c
  {}

  /** What "%4.4x" prints are the digits of the id. */
  lemma HexReads(id: uint16)
    ensures var s := Hex4(id);
            && (forall i :: 0 <= i < 4 ==> DigitValue(s[i]) >= 0)
            && 0x1000 * DigitValue(s[0]) + 0x100 * DigitValue(s[1]) + 16 * DigitValue(s[2]) + DigitValue(s[3]) == id
  {
    hide HexChar, DigitValue;
    FourDigits(id);
    DigitOfChar(id / 0x1000);
    DigitOfChar(id / 0x100 % 16);
    DigitOfChar(id / 16 % 16);
    DigitOfChar(id % 16);
  }

  /** The digits to base 16 are determined. */
  lemma DigitsOf(a: int, b: int, c: int, d: int)
    requires 0 <= a < 16 && 0 <= b < 16 && 0 <= c < 16 && 0 <= d < 16
    ensures var v := 0x1000 * a + 0x100 * b + 16 * c + d;
            v / 0x1000 == a && v / 0x100 % 16 == b && v / 16 % 16 == c && v % 16 == d
  {
    var v := 0x1000 * a + 0x100 * b + 16 * c + d;
    Divided(v, 0x1000, a, 0x100 * b + 16 * c + d);
    Divided(v, 0x100, 16 * a + b, 16 * c + d);
    Divided(16 * a + b, 16, a, b);
    Divided(v, 16, 0x100 * a + 16 * b + c, d);
    Divided(0x100 * a + 16 * b + c, 16, 16 * a + b, c);
  }

  /** Comparing with the printed id is comparing numbers. */
  lemma PrintedIdMatchesIff(text: string, id: uint16)
    ensures Matches(text, id) <==> |text| >= 4 && text[..4] == Hex4(id)
  {
    if Matches(text, id) {
      forall i | 0 <= i < 4
        ensures HexChar(DigitValue(text[i])) == text[i] && 0 <= DigitValue(text[i]) < 16
      {
        CharOfDigit(text[i]);
      }
      hide HexChar, DigitValue;
      DigitsOf(DigitValue(text[0]), DigitValue(text[1]), DigitValue(text[2]), DigitValue(text[3]));
      assert text[..4] == [text[0], text[1], text[2], text[3]];
    }
    if |text| >= 4 && text[..4] == Hex4(id) {
      PrintedIdMatches(text, id);
    }
  }

  lemma PrintedIdMatches(text: string, id: uint16)
    requires |text| >= 4 && text[..4] == Hex4(id)
    ensures Matches(text, id)
  {
    HexReads(id);
    hide Hex4, DigitValue;
    assert forall i :: 0 <= i < 4 ==> text[i] == text[..4][i];
  }

  lemma RecordMatches(id: uint16, name: string, other: uint16)
    ensures Matches(RecordText(id, name), other) <==> id == other
    ensures RecordText(id, name)[6..] == name
  {
    HexReads(id);
    hide Hex4, DigitValue;
    assert forall i :: 0 <= i < 4 ==> RecordText(id, name)[i] == Hex4(id)[i];
  }

  lemma {:induction false} NoNul(s: string)
    requires NUL !in s
    ensures UntilNul(s) == s
  {
    if s != [] {
      NoNul(s[1..]);
    }
  }

  lemma NameOfRecord(id: uint16, name: string)
    requires PrintableName(name)
    ensures NameIn(RecordText(id, name)) == Cut(name)
  {
    RecordMatches(id, name, id);
    NoNul(name);
  }

  lemma {:induction false} DbLinesSplit(db: seq<VendorRecord>, i: nat)
    requires i < |db|
    ensures DbLines(db) == DbLines(db[..i]) + ([Entry(0, RecordText(db[i].id, db[i].name))]
                                               + (DeviceLines(db[i].devices) + DbLines(db[i + 1..])))
  {
    hide RecordText, DeviceLines;
    if i == 0 {
      assert db[..0] == [];
      assert DbLines(db[..0]) == [];
    } else {
      DbLinesSplit(db[1..], i - 1);
      assert db[1..][..i - 1] == db[..i][1..] && db[1..][i..] == db[i + 1..] && db[1..][i - 1] == db[i];
      assert db[..i][0] == db[0];
    }
  }

  lemma {:induction false} OthersDoNotMatch(db: seq<VendorRecord>, ven: uint16)
    requires forall v :: v in db ==> v.id != ven
    ensures NoVendor(DbLines(db), ven)
  {
    if db != [] {
      assert db[0] in db;
      RecordMatches(db[0].id, db[0].name, ven);
      OthersDoNotMatch(db[1..], ven);
      hide Matches, RecordText;
      var lines := DeviceLines(db[0].devices) + DbLines(db[1..]);
      assert forall j :: 0 <= j < |lines| && lines[j].Entry? && lines[j].tabs == 0 ==> !Matches(lines[j].text, ven);
    }
  }

  /** For every printed database with unique vendor ids, looking up a listed pair returns its names, cut
      to 75 characters. */
  lemma LookupRoundTrip(db: seq<VendorRecord>, i: nat, k: nat, venBefore: string, devBefore: string)
    requires Printable(db) && UniqueVendors(db) && i < |db| && k < |db[i].devices|
    requires forall j :: 0 <= j < k ==> db[i].devices[j].id != db[i].devices[k].id
    ensures Lookup(Search(venBefore, devBefore, false, false), AllLines(PrintDb(db)), db[i].id, db[i].devices[k].id)
            == Search(Cut(db[i].name), Cut(db[i].devices[k].name), true, true)
  {
    hide AllLines, PrintDb, DbLines, Matches, RecordText, Cut, NameIn, Lookup;
    var v := db[i];
    var d := v.devices[k];
    assert v in db && d in v.devices;
    ReadPrinted(db);
    DbLinesSplit(db, i);
    OthersDoNotMatch(db[..i], v.id);
    RecordMatches(v.id, v.name, v.id);
    NameOfRecord(v.id, v.name);
    NameOfRecord(d.id, d.name);
    forall j | 0 <= j < |v.devices|
      ensures IsDevice(DeviceLines(v.devices)[j], d.id) <==> v.devices[j].id == d.id
    {
      RecordMatches(v.devices[j].id, v.devices[j].name, d.id);
    }
    LookupFindsOwnDevice(DbLines(db[..i]), RecordText(v.id, v.name), DeviceLines(v.devices), DbLines(db[i + 1..]), k,
                         v.id, d.id, venBefore, devBefore);
  }

  /** The name of another vendor's device is returned for a pair that is not listed: vendor 1 lists nothing,
      vendor 2 lists device 7. */
  lemma UnlistedPairBorrowsName(a: string, b: string, c: string)
    requires PrintableName(a) && PrintableName(b) && PrintableName(c)
    ensures Lookup(Search("", "", false, false),
                   AllLines(PrintDb([VendorRecord(1, a, []), VendorRecord(2, b, [DeviceRecord(7, c)])])), 1, 7).done
  {
    var db := [VendorRecord(1, a, []), VendorRecord(2, b, [DeviceRecord(7, c)])];
    hide AllLines, PrintDb, Matches, RecordText, Lookup, DbLines, DeviceLines, PrintableName;
    assert Printable(db);
    ReadPrinted(db);
    RecordMatches(1, a, 1);
    RecordMatches(7, c, 7);
    TwoVendors(a, b, c);
    var lines := DbLines(db);
    assert IsVendor(lines[0], 1) && IsDevice(lines[2], 7);
    LookupDoneIff(Search("", "", false, false), lines, 1, 7);
  }

  lemma TwoVendors(a: string, b: string, c: string)
    ensures DbLines([VendorRecord(1, a, []), VendorRecord(2, b, [DeviceRecord(7, c)])])
            == [Entry(0, RecordText(1, a)), Entry(0, RecordText(2, b)), Entry(1, RecordText(7, c))]
  {
    hide RecordText;
    var db := [VendorRecord(1, a, []), VendorRecord(2, b, [DeviceRecord(7, c)])];
    assert db[1..] == [VendorRecord(2, b, [DeviceRecord(7, c)])];
    assert DbLines(db[1..][1..]) == [];
    assert DbLines(db[1..]) == [Entry(0, RecordText(2, b)), Entry(1, RecordText(7, c))];
  }
}
