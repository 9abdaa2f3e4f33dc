/** The text journal written by every queue: record kinds, their encoding,
    the line-by-line reader the loaders use, and the round trip between the two. */
module Journal {
  import opened Common

  /** One journal line (plus payload for `Stored`):
      `S <timeout> <len>\r\n<data>\r\n`, `G\r\n`, `B <id>\r\n`, `U <id>\r\n`, `R <id>\r\n`. */
  datatype Record =
    | Stored(timeout: int, data: string)
    | Got
    | Borrowed(id: string)
    | Used(id: string)
    | Returned(id: string)

  /** Ids in a record are tokens that the reader's whitespace split gives back. */
  predicate WellFormed(r: Record) {
    match r
    case Borrowed(id) => ValidId(id)
    case Used(id) => ValidId(id)
    case Returned(id) => ValidId(id)
    case _ => true
  }

  predicate AllWellFormed(rs: seq<Record>) {
    forall i :: 0 <= i < |rs| ==> WellFormed(rs[i])
  }

  // ---------------------------------------------------------------------
  // Decimal integers (`%d` on the writing side, `int()` on the reading side)

  predicate IsDigit(c: char) { '0' <= c <= '9' }

  predicate AllDigits(s: string) {
    forall i :: 0 <= i < |s| ==> IsDigit(s[i])
  }

  function DigitChar(d: nat): (c: char)
    requires d < 10
    ensures IsDigit(c) && c as int - '0' as int == d
  {
    "0123456789"[d]
  }

  function DigitValue(c: char): nat
    requires IsDigit(c)
  {
    c as int - '0' as int
  }

  /** Value of a non-empty digit string, most significant digit first. */
  function DigitsValue(s: string): nat
    requires AllDigits(s)
    decreases |s|
  {
    if s == [] then 0 else DigitsValue(s[..|s| - 1]) * 10 + DigitValue(s[|s| - 1])
  }

  function NatToStr(n: nat): (s: string)
    ensures |s| > 0 && AllDigits(s)
    decreases n
  {
    if n < 10 then [DigitChar(n)] else NatToStr(n / 10) + [DigitChar(n % 10)]
  }

  /** `'%d' % i`: optional minus sign, then decimal digits. */
  function IntToStr(i: int): (s: string)
    ensures |s| > 0
    ensures forall k :: 0 <= k < |s| ==> IsDigit(s[k]) || s[k] == '-'
  {
    if i < 0 then "-" + NatToStr(-i) else NatToStr(i)
  }

  /** Python's `int(tok)` on a whitespace-free token: an optional sign and
      at least one decimal digit; anything else raises (None here). */
  function ParseInt(tok: string): (r: Option<int>)
    ensures r.Some? <==>
      (|tok| > 0 && AllDigits(tok)) ||
      (|tok| > 1 && (tok[0] == '-' || tok[0] == '+') && AllDigits(tok[1..]))
  {
    if |tok| > 1 && (tok[0] == '-' || tok[0] == '+') && AllDigits(tok[1..]) then
      var v: int := DigitsValue(tok[1..]);
      if tok[0] == '-' then Some(-v) else Some(v)
    else if |tok| > 0 && AllDigits(tok) then Some(DigitsValue(tok))
    else None
  }

  lemma {:induction false} NatToStrRoundTrip(n: nat)
    ensures DigitsValue(NatToStr(n)) == n
    decreases n
  {
    if n >= 10 {
      NatToStrRoundTrip(n / 10);
      var s := NatToStr(n);
      assert s[..|s| - 1] == NatToStr(n / 10);
    }
  }

  /** `int('%d' % i) == i` for every integer. */
  lemma IntToStrRoundTrip(i: int)
    ensures ParseInt(IntToStr(i)) == Some(i)
  {
    if i < 0 {
      ParseNegative(-i);
    } else {
      ParseNatural(i);
    }
  }

  lemma ParseNatural(n: nat)
    ensures ParseInt(NatToStr(n)) == Some(n)
  {
    NatToStrRoundTrip(n);
    var s := NatToStr(n);
    assert IsDigit(s[0]);
  }

  lemma ParseNegative(n: nat)
    requires n > 0
    ensures ParseInt("-" + NatToStr(n)) == Some(-(n as int))
  {
    NatToStrRoundTrip(n);
    var s := "-" + NatToStr(n);
    assert s[1..] == NatToStr(n);
  }

  // ---------------------------------------------------------------------
  // Lines and whitespace split

  /** Length of `readline()`'s result: up to and including the first `\n`,
      or the whole rest of the file when there is none. */
  function LineLength(s: string): (n: nat)
    ensures n <= |s|
    ensures (n == 0) <==> (s == [])
    ensures forall i :: 0 <= i < n - 1 ==> s[i] != '\n'
    ensures n == |s| || s[n - 1] == '\n'
    ensures n > 0 && s[n - 1] != '\n' ==> forall i :: 0 <= i < |s| ==> s[i] != '\n'
  {
    if s == [] then 0 else if s[0] == '\n' then 1 else 1 + LineLength(s[1..])
  }

  /** The leading run of non-whitespace characters. */
  function Word(s: string): (w: string)
    ensures |w| <= |s| && w == s[..|w|]
    ensures forall i :: 0 <= i < |w| ==> !IsSpace(w[i])
    ensures |w| < |s| ==> IsSpace(s[|w|])
  {
    if s == [] || IsSpace(s[0]) then [] else [s[0]] + Word(s[1..])
  }

  /** Python's `str.split()` with no argument: the maximal whitespace-free runs. */
  function Split(s: string): (ts: seq<string>)
    ensures forall i :: 0 <= i < |ts| ==> ValidId(ts[i])
    decreases |s|
  {
    if s == [] then []
    else if IsSpace(s[0]) then Split(s[1..])
    else
      var w := Word(s);
      [w] + Split(s[|w|..])
  }

  // ---------------------------------------------------------------------
  // Encoding

  function Encode(r: Record): (s: string)
  {
    match r
    case Stored(t, d) => "S " + IntToStr(t) + " " + IntToStr(|d|) + "\r\n" + d + "\r\n"
    case Got => "G\r\n"
    case Borrowed(id) => "B " + id + "\r\n"
    case Used(id) => "U " + id + "\r\n"
    case Returned(id) => "R " + id + "\r\n"
  }

  /** The file contents after appending the records in order. */
  function EncodeAll(rs: seq<Record>): (s: string)
    decreases |rs|
  {
    if rs == [] then "" else EncodeAll(rs[..|rs| - 1]) + Encode(rs[|rs| - 1])
  }

  // ---------------------------------------------------------------------
  // Reading

  datatype ParseError =
    | BadFields(line: string)   // `line.split()` did not give the expected number of fields
    | BadNumber(token: string)  // `int()` raised on a field of an `S` line

  /** What the loader reads before it stops: the records of every line up to
      the first line that makes it raise, and that line's error if any. */
  datatype Parsed = Parsed(records: seq<Record>, error: Option<ParseError>)

  function Prepend(r: Record, p: Parsed): Parsed {
    Parsed([r] + p.records, p.error)
  }

  /** The loaders' reading loop: `readline()`, dispatch on the first
      character, `split()` the line, and for `S` read exactly `<len>` payload
      bytes (fewer at end of file, the whole rest for a negative length) and
      then up to two line-break bytes. Lines starting with another character
      are skipped. */
  function Parse(s: string): (p: Parsed)
    ensures AllWellFormed(p.records)
    decreases |s|
  {
    if s == [] then Parsed([], None)
    else
      var n := LineLength(s);
      var line, rest := s[..n], s[n..];
      var toks := Split(line);
      var c := line[0];
      if c == 'B' || c == 'U' || c == 'R' then
        if |toks| != 2 then Parsed([], Some(BadFields(line)))
        else
          var r := if c == 'B' then Borrowed(toks[1]) else if c == 'U' then Used(toks[1]) else Returned(toks[1]);
          Prepend(r, Parse(rest))
      else if c == 'G' then
        Prepend(Got, Parse(rest))
      else if c == 'S' then
        if |toks| != 3 then Parsed([], Some(BadFields(line)))
        else
          match ParseInt(toks[2])
          case None => Parsed([], Some(BadNumber(toks[2])))
          case Some(len) =>
            match ParseInt(toks[1])
            case None => Parsed([], Some(BadNumber(toks[1])))
            case Some(t) =>
              var k := if len < 0 || len > |rest| then |rest| else len;
              var after := rest[k..];
              var skip := if |after| < 2 then |after| else 2;
              Prepend(Stored(t, rest[..k]), Parse(after[skip..]))
      else
        Parse(rest)
  }

  // ---------------------------------------------------------------------
  // Round trip

  lemma {:induction false} LineLengthOfLine(p: string, t: string)
    requires |p| > 0 && p[|p| - 1] == '\n'
    requires forall i :: 0 <= i < |p| - 1 ==> p[i] != '\n'
    ensures LineLength(p + t) == |p|
    decreases |p|
  {
    if |p| > 1 {
      assert (p + t)[1..] == p[1..] + t;
      LineLengthOfLine(p[1..], t);
    }
  }

  lemma {:induction false} WordOf(w: string, t: string)
    requires forall i :: 0 <= i < |w| ==> !IsSpace(w[i])
    requires t == [] || IsSpace(t[0])
    ensures Word(w + t) == w
    decreases |w|
  {
    if w != [] {
      assert (w + t)[1..] == w[1..] + t;
      WordOf(w[1..], t);
    }
  }

  /** A whitespace-free word followed by a separator splits off as one field. */
  lemma SplitWord(w: string, c: char, t: string)
    requires ValidId(w) && IsSpace(c)
    ensures Split(w + [c] + t) == [w] + Split(t)
  {
    var s := w + [c] + t;
    assert s == w + ([c] + t);
    WordOf(w, [c] + t);
    assert s[|w|..] == [c] + t;
    assert ([c] + t)[1..] == t;
  }

  lemma SplitCrLf()
    ensures Split("\r\n") == []
  {
    assert "\r\n"[1..] == "\n";
    assert "\n"[1..] == "";
  }

  lemma IdLine(tag: char, id: string)
    requires ValidId(id) && !IsSpace(tag)
    ensures Split([tag] + " " + id + "\r\n") == [[tag], id]
  {
    SplitCrLf();
    SplitWord(id, '\r', "\n");
    assert id + "\r\n" == id + ['\r'] + "\n";
    SplitWord([tag], ' ', id + "\r\n");
    assert [tag] + " " + id + "\r\n" == [tag] + [' '] + (id + "\r\n");
  }

  lemma IntTokenValid(i: int)
    ensures ValidId(IntToStr(i))
  {
    var s := IntToStr(i);
    forall k | 0 <= k < |s| ensures !IsSpace(s[k]) {
      assert IsDigit(s[k]) || s[k] == '-';
    }
  }

  /** Reading one encoded record in front of any text gives that record
      followed by whatever the text gives. */
  lemma ParseEncoded(r: Record, t: string)
    requires WellFormed(r)
    ensures Parse(Encode(r) + t) == Prepend(r, Parse(t))
  {
    match r
    case Got => GotRecord(t);
    case Borrowed(id) => IdRecordOf(r, 'B', t);
    case Used(id) => IdRecordOf(r, 'U', t);
    case Returned(id) => IdRecordOf(r, 'R', t);
    case Stored(tm, d) => StoredRecord(tm, d, t);
  }

  /** A `B`, `U` or `R` record is its tag, a space, its id and a line break. */
  lemma IdRecordOf(r: Record, tag: char, t: string)
    requires WellFormed(r)
    requires (r.Borrowed? && tag == 'B') || (r.Used? && tag == 'U') || (r.Returned? && tag == 'R')
    ensures Parse(Encode(r) + t) == Prepend(r, Parse(t))
  {
    assert Encode(r) + t == [tag] + " " + r.id + "\r\n" + t;
    IdRecord(tag, r.id, t);
  }

  lemma GotRecord(t: string)
    ensures Parse(Encode(Got) + t) == Prepend(Got, Parse(t))
  {
    var s := Encode(Got) + t;
    LineLengthOfLine("G\r\n", t);
    assert s[..3] == "G\r\n";
    assert s[3..] == t;
  }

  lemma StoredLine(a: string, b: string)
    requires ValidId(a) && ValidId(b)
    ensures Split("S " + a + " " + b + "\r\n") == ["S", a, b]
  {
    TwoFields(a, b);
    SplitWord("S", ' ', a + " " + b + "\r\n");
    assert "S " + a + " " + b + "\r\n" == "S" + [' '] + (a + " " + b + "\r\n");
  }

  /** The last two fields of a line, before its line break. */
  lemma TwoFields(a: string, b: string)
    requires ValidId(a) && ValidId(b)
    ensures Split(a + " " + b + "\r\n") == [a, b]
  {
    LastField(b);
    SplitWord(a, ' ', b + "\r\n");
    assert a + " " + b + "\r\n" == a + [' '] + (b + "\r\n");
  }

  /** The last field of a line, before its line break. */
  lemma LastField(b: string)
    requires ValidId(b)
    ensures Split(b + "\r\n") == [b]
  {
    SplitCrLf();
    SplitWord(b, '\r', "\n");
    assert b + "\r\n" == b + ['\r'] + "\n";
  }

  /** The `S` line of a stored record is one line: its only `\n` is its last byte. */
  lemma StoredLineLength(a: string, b: string, rest: string)
    requires ValidId(a) && ValidId(b)
    ensures LineLength("S " + a + " " + b + "\r\n" + rest) == |"S " + a + " " + b + "\r\n"|
  {
    var line := "S " + a + " " + b + "\r\n";
    forall i | 0 <= i < |line| - 1 ensures line[i] != '\n' {
      if 2 <= i < 2 + |a| { assert line[i] == a[i - 2]; }
      else if 3 + |a| <= i < 3 + |a| + |b| { assert line[i] == b[i - 3 - |a|]; }
    }
    LineLengthOfLine(line, rest);
  }

  /** One step of the reader on an `S` line whose fields are well formed. */
  lemma StoredStep(s: string, line: string, d: string, t: string, a: string, b: string, tm: int)
    requires s == line + (d + "\r\n" + t) && |line| > 0 && line[0] == 'S'
    requires LineLength(s) == |line|
    requires Split(line) == ["S", a, b]
    requires ParseInt(a) == Some(tm) && ParseInt(b) == Some(|d|)
    ensures Parse(s) == Prepend(Stored(tm, d), Parse(t))
  {
    Halves(line, d + "\r\n" + t);
    Payload(d, t);
  }

  lemma Halves(p: string, q: string)
    ensures (p + q)[..|p|] == p && (p + q)[|p|..] == q
  {
  }

  /** The payload and the line break after it. */
  lemma Payload(d: string, t: string)
    ensures (d + "\r\n" + t)[..|d|] == d && (d + "\r\n" + t)[|d|..][2..] == t
  {
    var rest := d + "\r\n" + t;
    assert rest[..|d|] == d;
    assert rest[|d|..] == "\r\n" + t;
  }

  lemma StoredRecord(tm: int, d: string, t: string)
    ensures Parse(Encode(Stored(tm, d)) + t) == Prepend(Stored(tm, d), Parse(t))
  {
    var a, b := IntToStr(tm), IntToStr(|d|);
    var line := "S " + a + " " + b + "\r\n";
    assert Encode(Stored(tm, d)) + t == line + (d + "\r\n" + t);
    IntTokenValid(tm);
    IntTokenValid(|d|);
    StoredLineLength(a, b, d + "\r\n" + t);
    StoredLine(a, b);
    IntToStrRoundTrip(tm);
    IntToStrRoundTrip(|d|);
    StoredStep(line + (d + "\r\n" + t), line, d, t, a, b, tm);
  }

  lemma IdRecord(tag: char, id: string, t: string)
    requires ValidId(id) && (tag == 'B' || tag == 'U' || tag == 'R')
    ensures Parse([tag] + " " + id + "\r\n" + t) ==
      Prepend(if tag == 'B' then Borrowed(id) else if tag == 'U' then Used(id) else Returned(id), Parse(t))
  {
    var line := [tag] + " " + id + "\r\n";
    var s := line + t;
    forall i | 0 <= i < |line| - 1 ensures line[i] != '\n' {
      if 2 <= i < 2 + |id| { assert line[i] == id[i - 2]; }
    }
    LineLengthOfLine(line, t);
    assert s[..|line|] == line;
    assert s[|line|..] == t;
    IdLine(tag, id);
  }

  /** Journal round trip: reading back the encoding of well-formed records
      recovers exactly those records, with no error. */
  lemma {:induction false} ParseEncodeAll(rs: seq<Record>)
    requires AllWellFormed(rs)
    ensures Parse(EncodeAll(rs)) == Parsed(rs, None)
  {
    ParseEncodeAllThen(rs, "");
    assert EncodeAll(rs) + "" == EncodeAll(rs);
    assert rs + [] == rs;
  }

  lemma EncodeAllSnoc(rs: seq<Record>, t: string)
    requires rs != []
    ensures EncodeAll(rs) + t == EncodeAll(rs[..|rs| - 1]) + (Encode(rs[|rs| - 1]) + t)
  {
  }

  lemma SnocAppend<T>(rs: seq<T>, tail: seq<T>)
    requires rs != []
    ensures rs[..|rs| - 1] + ([rs[|rs| - 1]] + tail) == rs + tail
  {
    assert rs == rs[..|rs| - 1] + [rs[|rs| - 1]];
  }

  lemma WellFormedPrefix(rs: seq<Record>, k: nat)
    requires AllWellFormed(rs) && k <= |rs|
    ensures AllWellFormed(rs[..k])
  {
    forall i | 0 <= i < k ensures WellFormed(rs[..k][i]) { assert rs[..k][i] == rs[i]; }
  }

  lemma {:induction false} ParseEncodeAllThen(rs: seq<Record>, t: string)
    requires AllWellFormed(rs)
    ensures Parse(EncodeAll(rs) + t) == Parsed(rs + Parse(t).records, Parse(t).error)
    decreases |rs|
  {
    if rs == [] {
      assert EncodeAll(rs) + t == t;
    } else {
      var init, last := rs[..|rs| - 1], rs[|rs| - 1];
      var u := Encode(last) + t;
      WellFormedPrefix(rs, |rs| - 1);
      var p := Parse(t);
      ParseEncoded(last, t);
      ParseEncodeAllThen(init, u);
      EncodeAllSnoc(rs, t);
      SnocAppend(rs, p.records);
    }
  }
}
