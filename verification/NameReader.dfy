/**
 The streaming reader of lfdk/lib_pci_scan.c: characters of the pci.ids file arrive one by one, the text of
 a line is collected in the global read_buffer, and the lookup compares and copies out of that buffer.
 */
module NameReader {
  import opened Bits
  import opened NameDatabase

  // ---------- the stream ----------

  /** The open database file, as what is left to read, and the global read_buffer. */
  class Reader {
    var rest: string
    const buffer: array<char>

    constructor (file: string)
      ensures Valid() && rest == file && fresh(buffer)
    {
      rest := file;
      buffer := new char[MAX_READBUF](_ => NUL);
    }

    ghost predicate Valid()
    {
      buffer.Length == MAX_READBUF
    }

    /** The buffer holds text, and zeros after it. */
    ghost predicate Holds(text: string)
      requires Valid()
      reads buffer
    {
      |text| <= MAX_READBUF && buffer[..|text|] == text && forall i :: |text| <= i < MAX_READBUF ==> buffer[i] == NUL
    }

    /** read(fd, &buf, 1) */
    method ReadChar() returns (got: bool, c: char)
      modifies this`rest
      ensures got == (old(rest) != [])
      ensures if got then old(rest) == [c] + rest else rest == []
    {
      if rest == [] {
        return false, NUL;
      }
      got, c := true, rest[0];
      rest := rest[1..];
    }

    method ClearBuffer()
      requires Valid()
      modifies buffer
      ensures Holds("")
    {
      var i := 0;
      while i < MAX_READBUF
        invariant 0 <= i <= MAX_READBUF && forall j :: 0 <= j < i ==> buffer[j] == NUL
      {
        buffer[i] := NUL;
        i := i + 1;
      }
    }

    /** while( read( fd, &buf, 1 ) && (buf != '\n') ); */
    method SkipComment()
      modifies this`rest
      ensures var n := LineEnd(old(rest));
              rest == if n < |old(rest)| then old(rest)[n + 1..] else []
    {
      ghost var data := rest;
      ghost var k := 0;
      var more, c := ReadChar();
      while more && c != '\n'
        invariant 0 <= k <= |data|
        invariant LineEnd(data) == k + LineEnd(data[k..])
        invariant if more then data[k..] == [c] + rest else data[k..] == [] && rest == []
        decreases |rest|, more
      {
        assert data[k..][1..] == data[k + 1..];
        k := k + 1;
        more, c := ReadChar();
      }
      if more {
        assert data[k..][1..] == data[k + 1..];
      }
    }

    /** read_buffer[ i ] = buf */
    method Store(c: char, i: nat, ghost text: string)
      requires Valid() && Holds(text) && i == |text| < MAX_READBUF
      modifies buffer
      ensures Holds(text + [c])
    {
      buffer[i] := c;
      assert buffer[..i + 1] == buffer[..i] + [c];
    }

    /** strlen( read_buffer ) */
    method StrLen(ghost text: string) returns (n: nat)
      requires Valid() && Holds(text) && (|text| < MAX_READBUF || NUL in text)
      ensures n == |UntilNul(text)|
    {
      ghost var end := if |text| < MAX_READBUF then |text| else IndexOf(text, NUL);
      assert buffer[end] == NUL;
      n := 0;
      while buffer[n] != NUL
        invariant n <= end && NUL !in buffer[..n]
        decreases MAX_READBUF - n
      {
        n := n + 1;
      }
      assert n <= |text| && text[..n] == buffer[..n] && (n < |text| ==> text[n] == NUL);
      assert text == text[..n] + text[n..];
      UntilNulAfter(text[..n], text[n..]);
    }

    /** ReadLine: the streaming loop computes what splitting the rest of the file at newlines gives. */
    method ReadLine() returns (tabs: int)
      requires Valid() && FitsBuffer(rest)
      modifies this`rest, buffer
      ensures Delivers(NextLine(old(rest)), tabs)
    {
      hide Text, Tabs, FitsBuffer, LineEnd, NextLine, Classify, Reader.Holds;
      ghost var data := rest;
      ghost var seen: string := [];
      ClearBuffer();
      NothingSeen();
      var i := 0;
      tabs := 0;
      var more, c := ReadChar();
      while more
        invariant if more then data == seen + ([c] + rest) else data == seen && rest == []
        invariant '#' !in seen && '\n' !in seen
        invariant i == |Text(seen)| && tabs == Tabs(seen)
        invariant Holds(Text(seen))
        decreases |rest|, more
      {
        if c == '#' {
          CommentEnds(data, seen, rest);
          SkipComment();
          return -1;
        } else if c == '\n' {
          LineEnds(data, seen, rest);
          LineTerminated(data, seen, rest);
          var n := StrLen(Text(seen));
          if n != 0 {
            return tabs;
          }
          return -1;
        }
        TextSnoc(seen, c);
        if c == '\t' {
          tabs := tabs + 1;
          assert Text(seen) + [] == Text(seen);
        } else {
          Room(data, seen, c, rest);
          Store(c, i, Text(seen));
          i := i + 1;
        }
        seen := seen + [c];
        more, c := ReadChar();
      }
      FileEnds(data);
      return -2;
    }

    /** What ReadLine's caller sees: the return code, the text in the buffer, the file position. */
    ghost predicate Delivers(next: (Line, string), tabs: int)
      requires Valid()
      reads this, buffer
    {
      && rest == next.1
      && tabs == (match next.0 case Skip => -1 case EndOfFile => -2 case Entry(t, _) => t)
      && (next.0.Entry? ==> Holds(next.0.text))
    }

    /** CompareID, with 0 for equal: four characters of the buffer against the printed id. */
    method CompareId(id: uint16, ghost text: string) returns (same: bool)
      requires Valid() && Holds(text)
      ensures same <==> Matches(text, id)
    {
      var idStr := new char[5](_ => NUL);
      var i := 0;
      while i < 4
        invariant 0 <= i <= 4 && idStr[..i] == buffer[..i]
      {
        idStr[i] := buffer[i];
        i := i + 1;
      }
      HexHasNoNul(id);
      PrintedIdMatchesIff(text, id);
      hide Hex4, Matches;
      same := idStr[..4] == Hex4(id);
      FirstFour(text);
    }

    lemma FirstFour(text: string)
      requires Valid() && Holds(text)
      ensures |text| >= 4 ==> text[..4] == buffer[..4]
      ensures |text| < 4 ==> NUL in buffer[..4]
    {
      if |text| >= 4 {
        assert buffer[..|text|][..4] == buffer[..4];
      } else {
        assert buffer[..4][|text|] == NUL;
      }
    }

    /** strncpy of at most 75 characters from read_buffer + 6 */
    method CopyName(ghost text: string) returns (name: string)
      requires Valid() && Holds(text)
      ensures name == NameIn(text)
    {
      ghost var tail := if |text| >= 6 then text[6..] else [];
      name := [];
      while |name| < MAX_PCINAME && buffer[6 + |name|] != NUL
        invariant |name| <= MAX_PCINAME && |name| <= |tail| && name == buffer[6..6 + |name|]
        invariant forall j :: 6 <= j < 6 + |name| ==> buffer[j] != NUL
        decreases MAX_PCINAME - |name|
      {
        name := name + [buffer[6 + |name|]];
      }
      assert name == tail[..|name|] by {
        if tail != [] {
          assert buffer[..|text|][6..6 + |name|] == name;
        }
      }
      CopyStops(tail, name);
    }

    /** GetVendorAndDeviceTexts on an opened file: reads up to the matching device or the end. */
    method GetVendorAndDeviceTexts(ven: uint16, dev: uint16, venBefore: string, devBefore: string)
      returns (venText: string, devText: string)
      requires Valid() && FitsWhileRead(Search(venBefore, devBefore, false, false), rest, ven, dev)
      modifies this`rest, buffer
      ensures var found := Lookup(Search(venBefore, devBefore, false, false), AllLines(old(rest)), ven, dev);
              venText == found.venText && devText == found.devText
    {
      hide Lookup, AllLines, NextLine, FitsWhileRead, FitsBuffer, Matches, NameIn, Reader.Holds;
      venText, devText := venBefore, devBefore;
      ghost var goal := Lookup(Search(venBefore, devBefore, false, false), AllLines(rest), ven, dev);
      var findVen, done := false, false;
      while true
        invariant !done && FitsWhileRead(Search(venText, devText, findVen, false), rest, ven, dev)
        invariant goal == Lookup(Search(venText, devText, findVen, false), AllLines(rest), ven, dev)
        decreases |rest|
      {
        ghost var data := rest;
        ghost var line := NextLine(data).0;
        FitsStep(Search(venText, devText, findVen, false), data, ven, dev);
        var tabs := ReadLine();
        LookupStep(Search(venText, devText, findVen, false), data, ven, dev);
        if tabs == 0 {
          var same := CompareId(ven, line.text);
          if same {
            venText := CopyName(line.text);
            findVen := true;
          }
        } else if tabs == 1 && findVen {
          var same := CompareId(dev, line.text);
          if same {
            devText := CopyName(line.text);
            done := true;
          }
        }
        if done {
          LookupDone(Search(venText, devText, findVen, true), AllLines(rest), ven, dev);
          return;
        }
        if tabs == -2 {
          return;
        }
      }
    }
  }

  /** A newline ends a line that is no comment. */
  lemma LineEnds(data: string, seen: string, rest: string)
    requires data == seen + (['\n'] + rest) && '\n' !in seen && '#' !in seen
    ensures NextLine(data)
            == (if Text(seen) == [] || Text(seen)[0] == NUL then Skip else Entry(Tabs(seen), Text(seen)), rest)
  {
    hide Text, Tabs;
    LineEndAfter(seen, ['\n'] + rest);
    assert data[..|seen|] == seen && data[|seen| + 1..] == rest;
  }

  lemma FileEnds(data: string)
    requires '\n' !in data && '#' !in data
    ensures NextLine(data) == (EndOfFile, [])
  {
    assert data + [] == data;
    LineEndAfter(data, []);
  }

  /** One more character that is stored has room. */
  lemma Room(data: string, seen: string, c: char, rest: string)
    requires data == seen + ([c] + rest) && '\n' !in seen && '#' !in seen && FitsBuffer(data)
    requires c != '\n' && c != '#' && c != '\t'
    ensures |Text(seen)| < MAX_READBUF
  {
    var s := seen + [c];
    assert data == s + rest;
    StoredEndAfter(s, rest);
    TextSnoc(seen, c);
    var line := data[..StoredEnd(data)];
    assert line[..|s|] == s;
    hide Text;
    TextGrows(line, |s|);
  }

  /** strlen stays in the buffer. */
  lemma LineTerminated(data: string, seen: string, rest: string)
    requires data == seen + (['\n'] + rest) && '\n' !in seen && '#' !in seen && FitsBuffer(data)
    ensures |Text(seen)| < MAX_READBUF || NUL in Text(seen)
  {
    hide Text;
    StoredEndAfter(seen, ['\n'] + rest);
    assert data[..|seen|] == seen;
  }

  function IndexOf(s: string, c: char): (n: nat)
    requires c in s
    ensures n < |s| && s[n] == c
  {
    if s[0] == c then 0 else IndexOf(s[1..], c) + 1
  }

  lemma {:induction false} UntilNulAfter(p: string, q: string)
    requires NUL !in p
    ensures UntilNul(p + q) == p + UntilNul(q)
  {
    if p == [] {
      assert p + q == q;
    } else {
      assert (p + q)[1..] == p[1..] + q;
      UntilNulAfter(p[1..], q);
    }
  }

  /** Copying stops at the first NUL, at the end of the text or after 75 characters. */
  lemma CopyStops(tail: string, name: string)
    requires |name| <= |tail| && name == tail[..|name|] && NUL !in name && |name| <= MAX_PCINAME
    requires |name| == MAX_PCINAME || |name| == |tail| || tail[|name|] == NUL
    ensures Cut(UntilNul(tail)) == name
  {
    assert tail == name + tail[|name|..];
    UntilNulAfter(name, tail[|name|..]);
  }

  lemma HexHasNoNul(id: uint16)
    ensures NUL !in Hex4(id)
  {}

  /** One line of the lookup; at the end of the file nothing changes any more. */
  lemma LookupStep(s: Search, data: string, ven: uint16, dev: uint16)
    requires !s.done
    ensures NextLine(data).0 == EndOfFile ==> Lookup(s, AllLines(data), ven, dev) == s
    ensures NextLine(data).0 != EndOfFile
            ==> |NextLine(data).1| < |data|
                && Lookup(s, AllLines(data), ven, dev)
                   == Lookup(Consider(s, NextLine(data).0, ven, dev), AllLines(NextLine(data).1), ven, dev)
  {
    var (line, rest) := NextLine(data);
    hide NextLine, Consider;
    if line != EndOfFile {
      assert AllLines(data) == [line] + AllLines(rest);
      assert ([line] + AllLines(rest))[1..] == AllLines(rest);
    }
  }

  lemma FitsStep(s: Search, data: string, ven: uint16, dev: uint16)
    requires !s.done && FitsWhileRead(s, data, ven, dev)
    ensures FitsBuffer(data)
    ensures NextLine(data).0 != EndOfFile
            ==> FitsWhileRead(Consider(s, NextLine(data).0, ven, dev), NextLine(data).1, ven, dev)
  {
    hide FitsBuffer, NextLine, Consider;
  }

  lemma LookupDone(s: Search, lines: seq<Line>, ven: uint16, dev: uint16)
    requires s.done
    ensures Lookup(s, lines, ven, dev) == s
  {}

  lemma NothingSeen()
    ensures Text("") == "" && Tabs("") == 0
  {}

  /** A comment reaches to the newline after the '#', or to the end of the file. */
  lemma CommentEnds(data: string, seen: string, rest: string)
    requires data == seen + (['#'] + rest) && '\n' !in seen
    ensures NextLine(data) == (Skip, if LineEnd(rest) < |rest| then rest[LineEnd(rest) + 1..] else [])
  {
    hide *;
    CommentOpens(seen, rest);
    CommentSkips(seen + ['#'] + rest, |seen|);
    AfterLineAfter(seen + ['#'], rest);
    AfterLineIs(rest);
  }

  lemma CommentOpens(seen: string, rest: string)
    requires '\n' !in seen
    ensures seen + (['#'] + rest) == seen + ['#'] + rest
    ensures '\n' !in seen + ['#']
    ensures (seen + ['#'] + rest)[|seen|] == '#'
    ensures |seen| < LineEnd(seen + ['#'] + rest)
  {
    hide *;
    Snoc(seen, '#');
    CommentBegins(seen + ['#'], rest);
    Reassociate(seen, ['#'], rest);
  }

  lemma Snoc(seen: string, c: char)
    ensures '\n' !in seen && c != '\n' ==> '\n' !in seen + [c]
  {}

  lemma CommentBegins(s: string, rest: string)
    requires '\n' !in s && |s| > 0
    ensures |s| - 1 < LineEnd(s + rest)
  {
    hide *;
    LineEndAfter(s, rest);
  }

  lemma Reassociate<T>(a: seq<T>, b: seq<T>, c: seq<T>)
    ensures a + (b + c) == a + b + c
  {}

  function AfterLine(data: string): string {
    if LineEnd(data) < |data| then data[LineEnd(data) + 1..] else []
  }

  lemma AfterLineIs(data: string)
    ensures AfterLine(data) == if LineEnd(data) < |data| then data[LineEnd(data) + 1..] else []
  {}

  lemma AfterLineAfter(seen: string, tail: string)
    requires '\n' !in seen
    ensures AfterLine(seen + tail) == AfterLine(tail)
  {
    hide LineEnd;
    LineEndAfter(seen, tail);
  }

  lemma CommentSkips(data: string, k: nat)
    requires k < LineEnd(data) && data[k] == '#'
    ensures NextLine(data) == (Skip, AfterLine(data))
  {
    hide LineEnd, Classify;
    if LineEnd(data) < |data| {
      assert data[..LineEnd(data)][k] == '#';
      CommentIsSkipped(data[..LineEnd(data)]);
    }
  }

  lemma CommentIsSkipped(line: string)
    requires '#' in line
    ensures Classify(line) == Skip
  {
    hide Text, Tabs;
  }
}
