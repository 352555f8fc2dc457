/** The text form of Android's properties: the lines a listing prints, and the
    parser that reads them back. */
module Properties {
  import opened Bytes

  const SEPARATOR := "]: ["

  /** bufio.Scanner gives up on a line that fills its buffer of 64 KiB. */
  const LINE_LIMIT := 65536

  function TrimSuffix(s: string, c: char): string {
    if |s| > 0 && s[|s| - 1] == c then s[..|s| - 1] else s
  }

  // ---- one line ----------------------------------------------------------

  predicate At(s: string, i: nat) {
    i + 4 <= |s| && s[i..i + 4] == SEPARATOR
  }

  /** The first separator, as strings.Cut finds it. */
  function Find(s: string, from: nat): (r: Option<nat>)
    requires from <= |s|
    ensures r.Some? ==> from <= r.value && At(s, r.value) && forall i :: from <= i < r.value ==> !At(s, i)
    ensures r.None? ==> forall i :: from <= i ==> !At(s, i)
    decreases |s| - from
  {
    if At(s, from) then Some(from) else if from == |s| then None else Find(s, from + 1)
  }

  /** parseGetPropLine. */
  function ParseLine(line: string): Option<(string, string)> {
    if |line| < 2 || line[0] != '[' || line[|line| - 1] != ']' then None
    else
      var body := line[1..|line| - 1];
      match Find(body, 0)
      case None => None
      case Some(i) => if i == 0 then None else Some((body[..i], body[i + 4..]))
  }

  function PrintLine(name: string, value: string): string {
    "[" + name + SEPARATOR + value + "]"
  }

  predicate NameFits(name: string) {
    name != "" && Find(name, 0).None?
  }

  /** A printed line reads back as its name and value exactly when the name is not
      empty and has no separator in it. */
  lemma LineRoundTrip(name: string, value: string)
    ensures ParseLine(PrintLine(name, value)) == Some((name, value)) <==> NameFits(name)
  {
    hide Find;
    var line, body := PrintLine(name, value), name + SEPARATOR + value;
    assert line[1..|line| - 1] == body;
    assert At(body, |name|);
    assert body[..|name|] == name && body[|name| + 4..] == value;
    forall i: nat | i < |name| ensures At(body, i) <==> At(name, i) {
      SeparatorInName(name, value, i);
    }
    assert forall i :: 0 <= i && At(name, i) ==> i < |name|;
    hide At;
  }

  lemma SeparatorInName(name: string, value: string, i: nat)
    requires i < |name|
    ensures At(name + SEPARATOR + value, i) <==> At(name, i)
  {
    var body := name + SEPARATOR + value;
    if i + 4 <= |name| {
      assert body[i..i + 4] == name[i..i + 4];
    } else {
      // the separator does not overlap itself
      assert body[i..i + 4][|name| - i] == body[|name|] == ']';
    }
  }

  /** Whatever is read as a name and a value is the line printed for them. */
  lemma ParsedIsPrinted(line: string)
    requires ParseLine(line).Some?
    ensures var (name, value) := ParseLine(line).value; line == PrintLine(name, value) && NameFits(name)
  {
    hide Find;
    var body := line[1..|line| - 1];
    var i := Find(body, 0).value;
    assert body == body[..i] + body[i..i + 4] + body[i + 4..];
    assert line == "[" + body + "]";
    var name := body[..i];
    forall j: nat | j + 4 <= i ensures !At(name, j) {
      assert name[j..j + 4] == body[j..j + 4];
      assert !At(body, j);
    }
  }

  // ---- the whole output --------------------------------------------------

  datatype Outcome =
    | Props(m: map<string, string>)
    | Malformed(number: nat, line: string)
    | LineTooLong

  /** The first line break from an index on, or the end. */
  function LineEnd(s: string, from: nat): (r: nat)
    requires from <= |s|
    ensures from <= r <= |s| && (forall j :: from <= j < r ==> s[j] != '\n') && (r < |s| ==> s[r] == '\n')
    decreases |s| - from
  {
    if from == |s| || s[from] == '\n' then from else LineEnd(s, from + 1)
  }

  /** Cutting at line breaks; the last line need not have one. */
  function Lines(s: string, from: nat): seq<string>
    requires from <= |s|
    decreases |s| - from
  {
    if from == |s| then []
    else
      var end := LineEnd(s, from);
      [s[from..end]] + Lines(s, if end < |s| then end + 1 else end)
  }

  /** The scanner drops one carriage return and the parser another. */
  function Trimmed(line: string): string {
    TrimSuffix(TrimSuffix(line, '\r'), '\r')
  }

  /** What a list of lines amounts to. */
  function Collected(lines: seq<string>): Outcome {
    if |lines| == 0 then Props(map[])
    else
      match Collected(lines[..|lines| - 1])
      case Props(m) => Taken(m, lines[|lines| - 1], |lines|)
      case failure => failure
  }

  /** One more line. */
  function Taken(m: map<string, string>, line: string, number: nat): Outcome {
    if |line| >= LINE_LIMIT then LineTooLong
    else if Trimmed(line) == "" then Props(m)
    else
      match ParseLine(Trimmed(line))
      case None => Malformed(number, Trimmed(line))
      case Some((name, value)) => Props(m[name := value])
  }

  lemma {:induction false} FailureStays(lines: seq<string>, more: seq<string>)
    requires !Collected(lines).Props?
    ensures Collected(lines + more) == Collected(lines)
    decreases |more|
  {
    if |more| == 0 {
      assert lines + more == lines;
    } else {
      assert (lines + more)[..|lines + more| - 1] == lines + more[..|more| - 1];
      FailureStays(lines, more[..|more| - 1]);
    }
    hide Taken;
  }

  /** The lines from an offset on: the one there, and those after it. */
  lemma NextLine(output: string, offset: nat)
    requires offset < |output|
    ensures var end := LineEnd(output, offset);
            Lines(output, offset) == [output[offset..end]] + Lines(output, if end < |output| then end + 1 else end)
  {
    hide LineEnd;
  }

  lemma CollectedSnoc(lines: seq<string>, line: string, m: map<string, string>)
    requires Collected(lines) == Props(m)
    ensures Collected(lines + [line]) == Taken(m, line, |lines| + 1)
  {
    hide Taken;
    assert (lines + [line])[..|lines|] == lines;
  }

  /** parseGetPropOutput. */
  method ParseGetPropOutput(output: string) returns (r: Outcome)
    ensures r == Collected(Lines(output, 0))
  {
    hide ParseLine, Trimmed, LineEnd, Lines, Collected;
    assert Collected([]) == Props(map[]) by { NothingCollected(); }
    var props: map<string, string> := map[];
    var number, offset := 0, 0;
    ghost var done: seq<string> := [];
    while offset < |output|
      invariant offset <= |output| && number == |done|
      invariant Lines(output, 0) == done + Lines(output, offset)
      invariant Collected(done) == Props(props)
    {
      var end := LineEnd(output, offset);
      var raw := output[offset..end];
      ghost var next := if end < |output| then end + 1 else end;
      NextLine(output, offset);
      assert Lines(output, 0) == done + [raw] + Lines(output, next);
      CollectedSnoc(done, raw, props);
      done := done + [raw];
      if |raw| >= LINE_LIMIT {
        FailureStays(done, Lines(output, next));
        return LineTooLong;
      }
      number := number + 1;
      var line := Trimmed(raw);
      if line != "" {
        match ParseLine(line)
        case None =>
          FailureStays(done, Lines(output, next));
          return Malformed(number, line);
        case Some((name, value)) =>
          props := props[name := value];
      }
      offset := if end < |output| then end + 1 else end;
    }
    NoLineLeft(output);
    assert done + [] == done;
    return Props(props);
  }

  lemma NothingCollected()
    ensures Collected([]) == Props(map[])
  {
  }

  lemma NoLineLeft(output: string)
    ensures Lines(output, |output|) == []
  {
  }

  /** What a line says, blank lines saying nothing. */
  function Told(line: string): Option<(string, string)> {
    ParseLine(Trimmed(line))
  }

  predicate Tells(line: string, name: string) {
    Told(line).Some? && Told(line).value.0 == name
  }

  /** The last line about a name. */
  function LastTelling(lines: seq<string>, name: string): Option<nat> {
    LastBefore(lines, name, |lines|)
  }

  function LastBefore(lines: seq<string>, name: string, n: nat): (r: Option<nat>)
    requires n <= |lines|
    ensures r.Some? ==> r.value < n && Tells(lines[r.value], name)
    ensures r.Some? ==> forall j :: r.value < j < n ==> !Tells(lines[j], name)
    ensures r.None? ==> forall j :: 0 <= j < n ==> !Tells(lines[j], name)
  {
    if n == 0 then None
    else if Tells(lines[n - 1], name) then Some(n - 1)
    else LastBefore(lines, name, n - 1)
  }

  lemma SameLast(init: seq<string>, last: string, name: string)
    requires !Tells(last, name)
    ensures LastTelling(init + [last], name) == LastTelling(init, name)
  {
    hide Tells, LastBefore;
    var lines := init + [last];
    var a, b := LastTelling(init, name), LastTelling(lines, name);
    if a.Some? { assert Tells(lines[a.value], name); }
    if b.Some? { assert b.value < |init| && Tells(init[b.value], name); }
  }

  /** The result holds the names that some line is about, each with what the last
      line about it says. */
  lemma {:induction false} LastLineWins(lines: seq<string>, name: string)
    requires Collected(lines).Props?
    ensures name in Collected(lines).m <==> LastTelling(lines, name).Some?
    ensures name in Collected(lines).m ==>
      Collected(lines).m[name] == Told(lines[LastTelling(lines, name).value]).value.1
  {
    if |lines| > 0 {
      hide Taken, Told, LastBefore;
      var init, last := lines[..|lines| - 1], lines[|lines| - 1];
      LastLineWins(init, name);
      assert lines == init + [last];
      TakenTold(Collected(init).m, last, |lines|);
      if Tells(last, name) { LastTells(lines, name); } else { SameLast(init, last, name); }
      hide LastTelling, Tells;
    }
  }

  lemma LastTells(lines: seq<string>, name: string)
    requires |lines| > 0 && Tells(lines[|lines| - 1], name)
    ensures LastTelling(lines, name) == Some(|lines| - 1)
  {
    hide Tells;
  }

  /** What a line adds to the result is what it says. */
  lemma TakenTold(m: map<string, string>, line: string, number: nat)
    requires Taken(m, line, number).Props?
    ensures Taken(m, line, number).m == if Told(line).Some? then m[Told(line).value.0 := Told(line).value.1] else m
  {
    assert ParseLine("").None?;
    hide ParseLine, Trimmed;
  }

  /** A result is a map of names that fit, with no line break anywhere. */
  predicate EntryFits(name: string, value: string, crlf: bool) {
    && NameFits(name) && '\n' !in name && '\n' !in value
    && |RawLine(name, value, crlf)| < LINE_LIMIT
  }

  /** A printed line before its line feed; a device's shell may put a carriage return
      there. */
  function RawLine(name: string, value: string, crlf: bool): string {
    PrintLine(name, value) + if crlf then "\r" else ""
  }

  /** The listing the command prints, in whatever order it takes the names, and the
      one a device prints with the other line ending. */
  function Listing(names: seq<string>, m: map<string, string>, crlf: bool): string
    requires forall i :: 0 <= i < |names| ==> names[i] in m
  {
    if |names| == 0 then ""
    else RawLine(names[0], m[names[0]], crlf) + "\n" + Listing(names[1..], m, crlf)
  }

  /** A line put in front of a text is its first line. */
  lemma FirstLine(line: string, rest: string)
    requires '\n' !in line
    ensures Lines(line + "\n" + rest, 0) == [line] + Lines(rest, 0)
  {
    var s := line + "\n" + rest;
    assert s[0..|line|] == line;
    assert forall j :: 0 <= j < |line| ==> s[j] == line[j];
    assert s[|line|] == '\n';
    assert LineEnd(s, 0) == |line| by { hide Lines; }
    LinesShift(line + "\n", rest, 0);
  }

  lemma {:induction false} LinesShift(head: string, s: string, from: nat)
    requires from <= |s|
    ensures Lines(head + s, |head| + from) == Lines(s, from)
    decreases |s| - from
  {
    hide LineEnd, Lines;
    var t := head + s;
    LineEndShift(head, s, from);
    if from < |s| {
      var end := LineEnd(s, from);
      NextLine(s, from);
      NextLine(t, |head| + from);
      assert t[|head| + from..|head| + end] == s[from..end];
      LinesShift(head, s, if end < |s| then end + 1 else end);
    } else {
      NoLineLeft(s);
      NoLineLeft(t);
    }
  }

  lemma {:induction false} LineEndShift(head: string, s: string, from: nat)
    requires from <= |s|
    ensures LineEnd(head + s, |head| + from) == |head| + LineEnd(s, from)
    decreases |s| - from
  {
    if from < |s| {
      assert (head + s)[|head| + from] == s[from];
      if s[from] != '\n' { LineEndShift(head, s, from + 1); }
    }
  }

  function Printed(names: seq<string>, m: map<string, string>, crlf: bool): seq<string>
    requires forall i :: 0 <= i < |names| ==> names[i] in m
  {
    seq(|names|, i requires 0 <= i < |names| => RawLine(names[i], m[names[i]], crlf))
  }

  lemma {:induction false} ListingLines(names: seq<string>, m: map<string, string>, crlf: bool)
    requires forall i :: 0 <= i < |names| ==> names[i] in m && '\n' !in names[i] && '\n' !in m[names[i]]
    ensures Lines(Listing(names, m, crlf), 0) == Printed(names, m, crlf)
  {
    if |names| > 0 {
      var line := RawLine(names[0], m[names[0]], crlf);
      FirstLine(line, Listing(names[1..], m, crlf));
      ListingLines(names[1..], m, crlf);
      assert Printed(names, m, crlf) == [line] + Printed(names[1..], m, crlf);
      hide Lines, RawLine;
    }
  }

  /** Up to two carriage returns at the end of a line are dropped, and no more. */
  lemma TrimmedCRs(line: string)
    requires line == "" || line[|line| - 1] != '\r'
    ensures Trimmed(line) == line && Trimmed(line + "\r") == line && Trimmed(line + "\r\r") == line
    ensures Trimmed(line + "\r\r\r") == line + "\r"
  {
    assert (line + "\r")[..|line|] == line;
    assert (line + "\r\r")[..|line| + 1] == line + "\r";
    assert (line + "\r\r\r")[..|line| + 2] == line + "\r\r";
  }

  lemma TakenPrinted(m: map<string, string>, name: string, value: string, crlf: bool, number: nat)
    requires EntryFits(name, value, crlf)
    ensures Taken(m, RawLine(name, value, crlf), number) == Props(m[name := value])
  {
    LineRoundTrip(name, value);
    var line := PrintLine(name, value);
    assert line[|line| - 1] == ']';
    TrimmedCRs(line);
    assert line + "" == line;
    hide ParseLine, NameFits, Trimmed;
  }

  lemma {:induction false} PrintedCollected(names: seq<string>, m: map<string, string>, crlf: bool)
    requires forall i :: 0 <= i < |names| ==> names[i] in m && EntryFits(names[i], m[names[i]], crlf)
    ensures Collected(Printed(names, m, crlf)) == Props(map name | name in names :: m[name])
  {
    hide Taken, EntryFits, RawLine;
    if |names| > 0 {
      var init, last := names[..|names| - 1], names[|names| - 1];
      var lines := Printed(names, m, crlf);
      PrintedCollected(init, m, crlf);
      assert lines[..|lines| - 1] == Printed(init, m, crlf);
      assert names == init + [last];
      TakenPrinted(map name | name in init :: m[name], last, m[last], crlf, |lines|);
    }
  }

  lemma {:induction false} LinesHaveNoBreak(s: string, from: nat)
    requires from <= |s|
    ensures forall i :: 0 <= i < |Lines(s, from)| ==> '\n' !in Lines(s, from)[i]
    decreases |s| - from
  {
    hide LineEnd;
    if from < |s| {
      var end := LineEnd(s, from);
      LinesHaveNoBreak(s, if end < |s| then end + 1 else end);
    }
  }

  lemma {:induction false} ResultsFit(lines: seq<string>)
    requires Collected(lines).Props? && forall i :: 0 <= i < |lines| ==> '\n' !in lines[i]
    ensures forall name :: name in Collected(lines).m ==>
      NameFits(name) && '\n' !in name && '\n' !in Collected(lines).m[name]
  {
    if |lines| > 0 {
      var last := lines[|lines| - 1];
      ResultsFit(lines[..|lines| - 1]);
      TrimmedInside(last);
      if ParseLine(Trimmed(last)).Some? {
        var (name, value) := ParseLine(Trimmed(last)).value;
        ParsedIsPrinted(Trimmed(last));
        PrintedInside(name, value);
      }
      hide ParseLine, Trimmed, NameFits, PrintLine;
    }
  }

  /** A result is read only from lines under the limit. */
  lemma {:induction false} ResultsAreShort(lines: seq<string>)
    requires Collected(lines).Props?
    ensures forall i :: 0 <= i < |lines| ==> |lines[i]| < LINE_LIMIT
  {
    hide Taken;
    if |lines| > 0 {
      var init, last := lines[..|lines| - 1], lines[|lines| - 1];
      ResultsAreShort(init);
      TakenIsShort(Collected(init).m, last, |lines|);
      assert forall i :: 0 <= i < |init| ==> init[i] == lines[i];
    }
  }

  lemma TakenIsShort(m: map<string, string>, line: string, number: nat)
    ensures Taken(m, line, number).Props? ==> |line| < LINE_LIMIT
  {
    hide Trimmed, ParseLine;
  }

  lemma TrimmedInside(line: string)
    ensures forall c :: c in Trimmed(line) ==> c in line
  {
  }

  lemma PrintedInside(name: string, value: string)
    ensures forall c :: c in name || c in value ==> c in PrintLine(name, value)
  {
  }

  /** Main result. Listing a property map in any order and with either line ending, and
      reading the listing back, gives the map exactly when every name is nonempty and
      without separator, no line feed occurs, and every line, with its carriage return
      if it has one, is under the scanner's limit. */
  lemma ListingRoundTrip(names: seq<string>, m: map<string, string>, crlf: bool)
    requires forall name :: name in names <==> name in m
    ensures Collected(Lines(Listing(names, m, crlf), 0)) == Props(m) <==>
      forall name :: name in m ==> EntryFits(name, m[name], crlf)
  {
    hide Lines, Collected, Listing, NameFits, RawLine;
    if forall name :: name in m ==> EntryFits(name, m[name], crlf) {
      ListingLines(names, m, crlf);
      PrintedCollected(names, m, crlf);
      assert (map name | name in names :: m[name]) == m;
    }
    if Collected(Lines(Listing(names, m, crlf), 0)) == Props(m) {
      LinesHaveNoBreak(Listing(names, m, crlf), 0);
      ResultsFit(Lines(Listing(names, m, crlf), 0));
      forall i | 0 <= i < |names| ensures names[i] in m && '\n' !in names[i] && '\n' !in m[names[i]] {
        assert names[i] in names;
      }
      ListingLines(names, m, crlf);
      ResultsAreShort(Printed(names, m, crlf));
      forall name | name in m ensures EntryFits(name, m[name], crlf) {
        var i :| 0 <= i < |names| && names[i] == name;
        assert |Printed(names, m, crlf)[i]| < LINE_LIMIT;
      }
    }
  }

  // ---- blank lines, and what is wrong with a text ------------------------

  /** A text that ends a line, with another behind it. */
  lemma {:induction false} LinesJoin(s: string, t: string, from: nat)
    requires from <= |s| && (s == "" || s[|s| - 1] == '\n')
    ensures Lines(s + t, from) == Lines(s, from) + Lines(t, 0)
    decreases |s| - from
  {
    hide LineEnd, Lines;
    if from == |s| {
      LinesShift(s, t, 0);
      NoLineLeft(s);
      assert [] + Lines(t, 0) == Lines(t, 0);
    } else {
      var end := LineEnd(s, from);
      LineHasEnd(s, from);
      LineEndIn(s, t, from);
      NextLine(s, from);
      NextLine(s + t, from);
      LinesJoin(s, t, end + 1);
      var line, rest := s[from..end], Lines(s, end + 1);
      assert (s + t)[from..end] == line;
      assert [line] + rest + Lines(t, 0) == [line] + (rest + Lines(t, 0));
    }
  }

  lemma LineHasEnd(s: string, from: nat)
    requires from < |s| && s[|s| - 1] == '\n'
    ensures LineEnd(s, from) < |s|
  {
    assert LineEnd(s, from) <= |s| - 1;
  }

  lemma {:induction false} LineEndIn(s: string, t: string, from: nat)
    requires from < |s| && LineEnd(s, from) < |s|
    ensures LineEnd(s + t, from) == LineEnd(s, from)
    decreases |s| - from
  {
    if s[from] != '\n' && from + 1 < |s| { LineEndIn(s, t, from + 1); }
  }

  /** The number of a malformed line behind an inserted one grows by one. */
  function Shifted(o: Outcome, at: nat): Outcome {
    if o.Malformed? && o.number > at then Malformed(o.number + 1, o.line) else o
  }

  lemma {:induction false} BlankLineChangesNothing(a: seq<string>, b: seq<string>, blank: string)
    requires blank in {"", "\r", "\r\r"}
    ensures Collected(a + [blank] + b) == Shifted(Collected(a + b), |a|)
    decreases |b|
  {
    hide Taken;
    if |b| == 0 {
      assert a + b == a && (a + [blank] + b)[..|a|] == a;
      MalformedNumber(a);
      BlankIsSkipped(blank);
    } else {
      var init, last := b[..|b| - 1], b[|b| - 1];
      BlankLineChangesNothing(a, init, blank);
      assert (a + [blank] + b)[..|a| + |b|] == a + [blank] + init;
      assert (a + b)[..|a| + |b| - 1] == a + init;
      MalformedNumber(a + init);
      TakenNumber(last);
    }
  }

  lemma BlankIsSkipped(blank: string)
    requires blank in {"", "\r", "\r\r"}
    ensures forall m, number :: Taken(m, blank, number) == Props(m)
  {
    TrimmedCRs("");
    assert "" + "\r" == "\r" && "" + "\r\r" == "\r\r";
    hide Trimmed, ParseLine;
  }

  lemma TakenNumber(line: string)
    ensures forall m, i: nat, j: nat ::
      (Taken(m, line, i).Props? ==> Taken(m, line, j) == Taken(m, line, i))
      && (Taken(m, line, i).LineTooLong? ==> Taken(m, line, j) == LineTooLong)
      && (Taken(m, line, i).Malformed? ==> Taken(m, line, i).number == i && Taken(m, line, j) == Malformed(j, Taken(m, line, i).line))
  {
    hide Trimmed, ParseLine;
  }

  /** The number of a malformed line is that of the first line that is not blank, not a
      property and not too long behind lines that are all fine. */
  lemma {:induction false} MalformedNumber(lines: seq<string>)
    ensures var o := Collected(lines);
            o.Malformed? ==>
              && 1 <= o.number <= |lines| && Collected(lines[..o.number - 1]).Props?
              && o.line == Trimmed(lines[o.number - 1]) && o.line != "" && ParseLine(o.line).None?
  {
    hide Trimmed, ParseLine;
    if |lines| > 0 {
      var init := lines[..|lines| - 1];
      MalformedNumber(init);
      var o := Collected(lines);
      if Collected(init).Malformed? {
        assert lines[..o.number - 1] == init[..o.number - 1];
      }
    }
  }

  /** Main result. Blank lines, ended either way, anywhere between the lines of a text,
      leave what is read from it as it is. */
  lemma BlankTextChangesNothing(s: string, t: string, crlf: bool)
    requires s == "" || s[|s| - 1] == '\n'
    ensures Collected(Lines(s + (if crlf then "\r\n" else "\n") + t, 0)) == Shifted(Collected(Lines(s + t, 0)), |Lines(s, 0)|)
  {
    hide *;
    if crlf {
      assert "\r" + "\n" == "\r\n";
      BlankInText(s, t, "\r");
    } else {
      assert "" + "\n" == "\n";
      BlankInText(s, t, "");
    }
  }

  lemma BlankInText(s: string, t: string, blank: string)
    requires blank in {"", "\r"} && (s == "" || s[|s| - 1] == '\n')
    ensures Collected(Lines(s + (blank + "\n") + t, 0)) == Shifted(Collected(Lines(s + t, 0)), |Lines(s, 0)|)
  {
    hide *;
    LinesJoin(s, t, 0);
    FirstLine(blank, t);
    ThreeParts(s, blank + "\n", t);
    LinesJoin(s, blank + "\n" + t, 0);
    var a, b := Lines(s, 0), Lines(t, 0);
    assert a + ([blank] + b) == a + [blank] + b;
    BlankLineChangesNothing(a, b, blank);
  }

  lemma ThreeParts(a: string, b: string, c: string)
    ensures a + b + c == a + (b + c)
  {
  }

  // ---- a single value ----------------------------------------------------

  /** parseGetPropValue. */
  function ParseValue(output: string): Option<string> {
    var v := TrimSuffix(TrimSuffix(output, '\n'), '\r');
    if '\r' in v || '\n' in v then None else Some(v)
  }

  /** What the device prints for one property reads back as its value exactly when
      the value has no line break, whichever way the device ends the line. */
  lemma ValueRoundTrip(value: string, crlf: bool)
    ensures ParseValue(value + if crlf then "\r\n" else "\n") == Some(value) <==> '\r' !in value && '\n' !in value
  {
    var s := value + if crlf then "\r\n" else "\n";
    assert s[..|s| - 1] == value + if crlf then "\r" else "";
    assert (value + "\r")[..|value|] == value && value + "" == value;
  }
}
