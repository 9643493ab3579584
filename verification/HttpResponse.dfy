/** `parse_http_response`: reading an HTTP/1.0 response off its bytes.
    Bytes are Latin-1 characters, which is how the parser decodes them.
    Python's string operations come first, each with what it means.
    Then the parser, the message form, and what parsing makes of it. */
module HttpResponse {

  import opened Blanks
  import opened Options
  import opened Sequences

  datatype Failure = NoTerminator | NoStatus | BadStatus | BadLength

  datatype Result<+T> = Ok(value: T) | Err(failure: Failure)

  /** A header field. A message keeps fields in order and with repetitions. */
  datatype Field = Field(name: string, value: string)

  datatype Response = Response(status: int, reason: string, fields: seq<Field>, body: string)

  const CRLF: string := "\r\n"
  const LENGTH: string := "Content-Length"

  // ----- Python's string operations -----

  /** The position of the first occurrence of `t`. */
  function Find(s: string, t: string): Option<nat> {
    if t <= s then Some(0)
    else if s == "" then None
    else
      match Find(s[1..], t)
      case Some(i) => Some(i + 1)
      case None => None
  }

  /** `s.split(sep, limit)`; a negative limit means no limit. */
  function Split(s: string, sep: string, limit: int): seq<string>
    requires sep != ""
    decreases |s|
  {
    var i := Find(s, sep);
    if limit == 0 || i.None? then [s]
    else
      FindFits(s, sep);
      [s[..i.value]] + Split(s[i.value + |sep|..], sep, limit - 1)
  }

  lemma {:induction false} FindFits(s: string, t: string)
    requires Find(s, t).Some?
    ensures Find(s, t).value + |t| <= |s| && t <= s[Find(s, t).value..]
  {
    if !(t <= s) {
      FindFits(s[1..], t);
      assert s[1..][Find(s[1..], t).value..] == s[Find(s, t).value..];
    }
  }

  ghost predicate OccursAt(s: string, t: string, i: nat) {
    i + |t| <= |s| && t <= s[i..]
  }

  lemma OccursInTail(s: string, t: string, i: nat)
    requires s != "" && i > 0
    ensures OccursAt(s, t, i) <==> OccursAt(s[1..], t, i - 1)
  {
    if i <= |s| {
      assert s[1..][i - 1..] == s[i..];
    }
  }

  /** It is the first position at which the text occurs, and there is none exactly when it occurs nowhere. */
  lemma {:induction false} FindMeaning(s: string, t: string, i: nat)
    ensures Find(s, t) == Some(i) <==> OccursAt(s, t, i) && forall j: nat | j < i :: !OccursAt(s, t, j)
  {
    assert s[0..] == s;
    assert t <= s <==> OccursAt(s, t, 0);
    if !(t <= s) && s != "" && i > 0 {
      FindMeaning(s[1..], t, i - 1);
      OccursInTail(s, t, i);
      if forall j: nat | j < i :: !OccursAt(s, t, j) {
        forall j: nat | j < i - 1 ensures !OccursAt(s[1..], t, j) {
          OccursInTail(s, t, j + 1);
        }
      }
      if forall j: nat | j < i - 1 :: !OccursAt(s[1..], t, j) {
        forall j: nat | 0 < j < i ensures !OccursAt(s, t, j) {
          OccursInTail(s, t, j);
        }
      }
    }
  }

  lemma NowhereMeaning(s: string, t: string)
    ensures Find(s, t).None? <==> forall i: nat :: !OccursAt(s, t, i)
  {
    if Find(s, t).Some? {
      FindMeaning(s, t, Find(s, t).value);
    } else {
      forall i: nat ensures !OccursAt(s, t, i) {
        NotBefore(s, t, i);
      }
    }
  }

  lemma {:induction false} NotBefore(s: string, t: string, i: nat)
    requires Find(s, t).None?
    ensures !OccursAt(s, t, i)
  {
    forall j: nat | j < i ensures !OccursAt(s, t, j) {
      NotBefore(s, t, j);
    }
    FindMeaning(s, t, i);
  }

  predicate IsDigit(c: char) { '0' <= c <= '9' }

  function Digits(s: string, acc: int, afterDigit: bool): Option<int> {
    if s == "" then if afterDigit then Some(acc) else None
    else if IsDigit(s[0]) then Digits(s[1..], 10 * acc + (s[0] - '0') as int, true)
    else if s[0] == '_' && afterDigit then Digits(s[1..], acc, false)
    else None
  }

  /** A numeral: digits, and underscores each of which stands after a digit and before another character. */
  ghost predicate IsNumeral(s: string, afterDigit: bool) {
    && (s == "" ==> afterDigit) && (s != "" ==> IsDigit(s[|s| - 1]))
    && forall i: nat | i < |s| :: NumeralAt(s, afterDigit, i)
  }

  ghost predicate NumeralAt(s: string, afterDigit: bool, i: nat)
    requires i < |s|
  {
    IsDigit(s[i]) || (s[i] == '_' && if i == 0 then afterDigit else IsDigit(s[i - 1]))
  }

  lemma {:induction false} DigitsExactly(s: string, acc: int, afterDigit: bool)
    ensures Digits(s, acc, afterDigit).Some? <==> IsNumeral(s, afterDigit)
  {
    if s != "" {
      var rest := s[1..];
      if IsDigit(s[0]) {
        DigitsExactly(rest, 10 * acc + (s[0] - '0') as int, true);
        NumeralAfter(s, rest, true, afterDigit);
      } else if s[0] == '_' && afterDigit {
        DigitsExactly(rest, acc, false);
        NumeralAfter(s, rest, false, afterDigit);
      } else {
        assert !NumeralAt(s, afterDigit, 0);
      }
    }
  }

  lemma NumeralAfter(s: string, rest: string, digit: bool, afterDigit: bool)
    requires s != "" && rest == s[1..] && (if digit then IsDigit(s[0]) else s[0] == '_' && afterDigit)
    ensures IsNumeral(s, afterDigit) <==> IsNumeral(rest, digit)
  {
    forall i: nat | i < |rest| ensures NumeralAt(s, afterDigit, i + 1) <==> NumeralAt(rest, digit, i) {}
    assert NumeralAt(s, afterDigit, 0);
    if IsNumeral(rest, digit) {
      forall i: nat | i < |s| ensures NumeralAt(s, afterDigit, i) {
        assert i > 0 ==> NumeralAt(rest, digit, i - 1);
      }
    }
    if IsNumeral(s, afterDigit) {
      forall i: nat | i < |rest| ensures NumeralAt(rest, digit, i) {
        assert NumeralAt(s, afterDigit, i + 1);
      }
    }
  }

  /** An underscore does not change the number. */
  lemma {:induction false} UnderscoreIgnored(a: string, b: string, acc: int, afterDigit: bool)
    requires a != "" && IsDigit(a[|a| - 1]) && b != "" && IsDigit(b[0])
    ensures Digits(a + "_" + b, acc, afterDigit) == Digits(a + b, acc, afterDigit)
  {
    assert (a + "_" + b)[1..] == a[1..] + "_" + b && (a + b)[1..] == a[1..] + b;
    if |a| == 1 {
      assert a[1..] + "_" + b == "_" + b && a[1..] + b == b && ("_" + b)[1..] == b;
      var n := 10 * acc + (a[0] - '0') as int;
      assert Digits("_" + b, n, true) == Digits(b, n, false) == Digits(b, n, true);
    } else {
      assert a[1..][|a| - 2] == a[|a| - 1];
      if IsDigit(a[0]) {
        UnderscoreIgnored(a[1..], b, 10 * acc + (a[0] - '0') as int, true);
      } else {
        UnderscoreIgnored(a[1..], b, acc, false);
      }
    }
  }

  /** `int(s)`: surrounding blanks, a sign, and single underscores between digits are allowed. */
  function ParseInt(s: string): Option<int> {
    var t := Strip(s);
    if t != "" && t[0] == '-' then
      match Digits(t[1..], 0, false)
      case Some(n) => Some(-n)
      case None => None
    else Digits(if t != "" && t[0] == '+' then t[1..] else t, 0, false)
  }

  function Lower(s: string): string {
    if s == "" then "" else [if 'A' <= s[0] <= 'Z' then s[0] - 'A' + 'a' else s[0]] + Lower(s[1..])
  }

  lemma {:induction false} LowerMeaning(s: string, i: nat)
    requires i < |s|
    ensures |Lower(s)| == |s|
    ensures Lower(s)[i] == if 'A' <= s[i] <= 'Z' then s[i] - 'A' + 'a' else s[i]
  {
    if i > 0 {
      LowerMeaning(s[1..], i - 1);
    } else if |s| > 1 {
      LowerMeaning(s[1..], 0);
    }
  }

  /** What stripping leaves lies between blanks and neither starts nor ends with one. */
  lemma StripMeaning(s: string) returns (before: string, after: string)
    ensures s == before + Strip(s) + after && forall c | c in before || c in after :: IsSpace(c)
    ensures Strip(s) != "" ==> !IsSpace(Strip(s)[0]) && !IsSpace(Strip(s)[|Strip(s)| - 1])
  {
    before := StripStartMeaning(s);
    after := StripEndMeaning(StripStart(s));
    assert StripStart(s) == Strip(s) + after;
    assert s == before + (Strip(s) + after) == before + Strip(s) + after;
  }

  // ----- the parser -----

  /** The field on one header line; lines without a colon are skipped. */
  function ParseField(line: string): Option<Field> {
    var parts := Split(line, ":", 1);
    if |parts| == 1 then None else Some(Field(parts[0], Strip(parts[1])))
  }

  function ParseFields(lines: seq<string>): seq<Field> {
    if lines == [] then []
    else
      match ParseField(lines[0])
      case Some(f) => [f] + ParseFields(lines[1..])
      case None => ParseFields(lines[1..])
  }

  /** The first value under a name, compared without regard to case. */
  function FieldValue(fields: seq<Field>, name: string): Option<string> {
    if fields == [] then None
    else if Lower(fields[0].name) == Lower(name) then Some(fields[0].value)
    else FieldValue(fields[1..], name)
  }

  /** The body, cut to the declared length, if one is declared. */
  function CutTo(length: Option<string>, body: string): Result<string> {
    match length
    case None => Ok(body)
    case Some(v) =>
      match ParseInt(v)
      case Some(n) => Ok(Take(body, n))
      case None => Err(BadLength)
  }

  function Cut(fields: seq<Field>, body: string): Result<string> {
    CutTo(FieldValue(fields, LENGTH), body)
  }

  /** Status and reason of a status line. */
  function ParseStatus(line: string): Result<(int, string)> {
    var parts := Split(line, " ", 2);
    if |parts| < 2 then Err(NoStatus)
    else
      match ParseInt(parts[1])
      case None => Err(BadStatus)
      case Some(n) => Ok((n, if |parts| > 2 then parts[2] else ""))
  }

  /** What the parser makes of the lines of the head and of the bytes after it. */
  function FromLines(lines: seq<string>, rest: string): Result<Response>
    requires lines != []
  {
    match ParseStatus(lines[0])
    case Err(why) => Err(why)
    case Ok((status, reason)) =>
      var fields := ParseFields(lines[1..]);
      match Cut(fields, rest)
      case Err(why) => Err(why)
      case Ok(body) => Ok(Response(status, reason, fields, body))
  }

  /** What the parser returns, part by part. */
  function Parsed(raw: string): Result<Response> {
    match Find(raw, CRLF + CRLF)
    case None => Err(NoTerminator)
    case Some(i) =>
      FindFits(raw, CRLF + CRLF);
      FromLines(Split(raw[..i], CRLF, -1), raw[i + 4..])
  }

  /** `parse_http_response` */
  method Parse(raw: string) returns (r: Result<Response>)
    ensures r == Parsed(raw)
  {
    var sep := Find(raw, CRLF + CRLF);
    if sep.None? {
      return Err(NoTerminator);
    }
    FindFits(raw, CRLF + CRLF);
    r := ParseHead(Split(raw[..sep.value], CRLF, -1), raw[sep.value + 4..]);
  }

  /** The loop over the header lines, and the cut. */
  method ParseHead(lines: seq<string>, rest: string) returns (r: Result<Response>)
    requires lines != []
    ensures r == FromLines(lines, rest)
  {
    var status := ParseStatus(lines[0]);
    if status.Err? {
      return Err(status.failure);
    }
    var fields := CollectFields(lines[1..]);
    var kept := Cut(fields, rest);
    if kept.Err? {
      return Err(kept.failure);
    }
    r := Ok(Response(status.value.0, status.value.1, fields, kept.value));
  }

  method CollectFields(lines: seq<string>) returns (fields: seq<Field>)
    ensures fields == ParseFields(lines)
  {
    fields := [];
    assert lines[0..] == lines;
    for i := 0 to |lines|
      invariant fields + ParseFields(lines[i..]) == ParseFields(lines)
    {
      assert lines[i..][1..] == lines[i + 1..];
      var f := ParseField(lines[i]);
      if f.Some? {
        fields := fields + [f.value];
      }
    }
  }

  /** A message without an empty line is refused as one, and no other is. */
  lemma NoTerminatorExactly(raw: string)
    ensures Parsed(raw) == Err(NoTerminator) <==> forall i: nat :: !OccursAt(raw, "\r\n\r\n", i)
  {
    assert CRLF + CRLF == "\r\n\r\n";
    NowhereMeaning(raw, CRLF + CRLF);
  }

  /** A status line needs a number after its first blank; the rest, up to the end, is the reason. */
  lemma StatusMeaning(version: string, word: string, reason: string)
    requires ' ' !in version && ' ' !in word
    ensures ParseStatus(version) == Err(NoStatus)
    ensures ParseStatus(version + " " + word) ==
              match ParseInt(word) case Some(n) => Ok((n, "")) case None => Err(BadStatus)
    ensures ParseStatus(version + " " + word + " " + reason) ==
              match ParseInt(word) case Some(n) => Ok((n, reason)) case None => Err(BadStatus)
  {
    SplitNothing(version, " ", 2);
    SplitAfter(version, " ", word, 2);
    SplitNothing(word, " ", 1);
    assert version + " " + word + " " + reason == version + " " + (word + " " + reason);
    SplitAfter(version, " ", word + " " + reason, 2);
    SplitAfter(word, " ", reason, 1);
    assert Split(reason, " ", 0) == [reason];
  }

  /** Header lines are read in order, and one without a colon is passed over. */
  lemma {:induction false} FieldsInOrder(a: seq<string>, b: seq<string>)
    ensures ParseFields(a + b) == ParseFields(a) + ParseFields(b)
    decreases |a|
  {
    if a == [] {
      assert a + b == b;
    } else {
      assert (a + b)[1..] == a[1..] + b;
      FieldsInOrder(a[1..], b);
    }
  }

  lemma FieldOfLine(line: string, name: string, value: string)
    requires ':' !in name
    ensures ':' !in line ==> ParseFields([line]) == []
    ensures ParseFields([name + ":" + value]) == [Field(name, Strip(value))]
  {
    if ':' !in line {
      SplitNothing(line, ":", 1);
    }
    FieldAfterColon(name, value);
    assert [line][1..] == [] && [name + ":" + value][1..] == [];
  }

  lemma FieldAfterColon(name: string, value: string)
    requires ':' !in name
    ensures ParseField(name + ":" + value) == Some(Field(name, Strip(value)))
  {
    SplitAfter(name, ":", value, 1);
    assert Split(value, ":", 0) == [value];
  }

  /** The value of the first field with that name, in any case of letters. */
  lemma {:induction false} FieldValueMeaning(fields: seq<Field>, name: string, i: nat)
    requires i < |fields| && Lower(fields[i].name) == Lower(name)
    requires forall j | 0 <= j < i :: Lower(fields[j].name) != Lower(name)
    ensures FieldValue(fields, name) == Some(fields[i].value)
  {
    if i > 0 {
      FieldValueMeaning(fields[1..], name, i - 1);
    }
  }

  lemma {:induction false} NoFieldValue(fields: seq<Field>, name: string)
    requires forall j | 0 <= j < |fields| :: Lower(fields[j].name) != Lower(name)
    ensures FieldValue(fields, name) == None
  {
    if fields != [] {
      NoFieldValue(fields[1..], name);
    }
  }

  // ----- the message form -----

  /** A natural number in decimal. */
  function Decimal(n: nat): string {
    var d := ['0' + (n % 10) as char];
    if n < 10 then d else Decimal(n / 10) + d
  }

  function Line(f: Field): string { f.name + ": " + f.value }

  function Lines(fields: seq<Field>): seq<string> {
    if fields == [] then [] else [Line(fields[0])] + Lines(fields[1..])
  }

  /** Each line followed by CRLF. */
  function Terminated(lines: seq<string>): string {
    if lines == [] then "" else lines[0] + CRLF + Terminated(lines[1..])
  }

  function StatusLine(status: nat, reason: string): string {
    "HTTP/1.0 " + Decimal(status) + " " + reason
  }

  /** Section 6 of RFC 1945: status line, header fields, an empty line, the body. */
  function Render(status: nat, reason: string, fields: seq<Field>, body: string): string {
    Terminated([StatusLine(status, reason)] + Lines(fields)) + CRLF + body
  }

  ghost predicate OneLine(s: string) { '\r' !in s && '\n' !in s }

  // ----- parsing undoes rendering -----

  lemma {:induction false} FindAfter(word: string, rest: string, t: string)
    requires t != "" && t[0] !in word
    ensures Find(word + rest, t) == match Find(rest, t) case Some(i) => Some(|word| + i) case None => None
  {
    if word == "" {
      assert word + rest == rest;
    } else {
      assert (word + rest)[0] != t[0];
      assert (word + rest)[1..] == word[1..] + rest;
      FindAfter(word[1..], rest, t);
    }
  }

  /** The first separator of `word sep rest` follows the word, when the word lacks its first character. */
  lemma SplitAfter(word: string, sep: string, rest: string, limit: int)
    requires sep != "" && sep[0] !in word && limit != 0
    ensures Split(word + sep + rest, sep, limit) == [word] + Split(rest, sep, limit - 1)
  {
    var s := word + sep + rest;
    assert s == word + (sep + rest);
    assert sep <= sep + rest;
    FindAfter(word, sep + rest, sep);
    assert s[..|word|] == word && s[|word| + |sep|..] == rest;
  }

  lemma SplitNothing(word: string, sep: string, limit: int)
    requires sep != "" && sep[0] !in word
    ensures Split(word, sep, limit) == [word]
  {
    assert word + "" == word;
    FindAfter(word, "", sep);
  }

  /** The lines without the last CRLF. */
  function Joined(lines: seq<string>): string
    requires lines != []
  {
    if |lines| == 1 then lines[0] else lines[0] + CRLF + Joined(lines[1..])
  }

  lemma {:induction false} TerminatedIsJoined(lines: seq<string>)
    requires lines != []
    ensures Terminated(lines) == Joined(lines) + CRLF
  {
    if |lines| > 1 {
      TerminatedIsJoined(lines[1..]);
      assert lines[0] + CRLF + (Joined(lines[1..]) + CRLF) == lines[0] + CRLF + Joined(lines[1..]) + CRLF;
    } else {
      assert Terminated(lines[1..]) == "";
    }
  }

  lemma {:induction false} SplitJoinedLimit(lines: seq<string>, limit: int)
    requires lines != [] && limit < 0 && forall i | 0 <= i < |lines| :: OneLine(lines[i])
    ensures Split(Joined(lines), CRLF, limit) == lines
    decreases |lines|
  {
    if |lines| == 1 {
      SplitNothing(lines[0], CRLF, limit);
    } else {
      SplitAfter(lines[0], CRLF, Joined(lines[1..]), limit);
      SplitJoinedLimit(lines[1..], limit - 1);
    }
  }

  /** The first empty line is the one the message ends its head with. */
  lemma {:induction false} FindEnd(lines: seq<string>, body: string)
    requires lines != [] && forall i | 0 <= i < |lines| :: OneLine(lines[i]) && lines[i] != ""
    ensures Find(Joined(lines) + (CRLF + CRLF + body), CRLF + CRLF) == Some(|Joined(lines)|)
    decreases |lines|
  {
    var end := CRLF + CRLF + body;
    if |lines| == 1 {
      FindAfter(lines[0], end, CRLF + CRLF);
      assert CRLF + CRLF <= end;
    } else {
      var next := Joined(lines[1..]) + end;
      FindEnd(lines[1..], body);
      assert next[0] == lines[1][0];
      FindPastBreak(next);
      FindAfterSome(lines[0], CRLF + next, CRLF + CRLF, 2 + |Joined(lines[1..])|);
      JoinedMore(lines, end);
    }
  }

  lemma JoinedMore(lines: seq<string>, end: string)
    requires |lines| > 1
    ensures Joined(lines) + end == lines[0] + (CRLF + (Joined(lines[1..]) + end))
    ensures |Joined(lines)| == |lines[0]| + 2 + |Joined(lines[1..])|
  {
  }

  lemma FindAfterSome(word: string, rest: string, t: string, k: nat)
    requires t != "" && t[0] !in word && Find(rest, t) == Some(k)
    ensures Find(word + rest, t) == Some(|word| + k)
  {
    FindAfter(word, rest, t);
  }

  lemma FindPastBreak(next: string)
    requires next != "" && next[0] != '\r' && Find(next, CRLF + CRLF).Some?
    ensures Find(CRLF + next, CRLF + CRLF) == Some(2 + Find(next, CRLF + CRLF).value)
  {
    var here := CRLF + next;
    assert here[2] == next[0] && here[1..][0] == '\n' && here[1..][1..] == next;
    assert Find(here[1..], CRLF + CRLF) == Some(Find(next, CRLF + CRLF).value + 1);
  }

  lemma {:induction false} DigitsOfDecimal(n: nat, rest: string)
    ensures Digits(Decimal(n) + rest, 0, false) == Digits(rest, n, true)
    ensures forall c | c in Decimal(n) :: IsDigit(c)
    ensures Decimal(n) != ""
    decreases n
  {
    var d := ['0' + (n % 10) as char];
    if n < 10 {
      assert (d + rest)[1..] == rest;
    } else {
      DigitsOfDecimal(n / 10, d + rest);
      assert Decimal(n) + rest == Decimal(n / 10) + (d + rest);
      assert (d + rest)[1..] == rest;
    }
  }

  lemma ParseDecimal(n: nat)
    ensures ParseInt(Decimal(n)) == Some(n)
  {
    DigitsOfDecimal(n, "");
    var s := Decimal(n);
    assert s + "" == s && s[0] in s && s[|s| - 1] in s;
  }

  lemma StatusRoundTrip(status: nat, reason: string)
    ensures ParseStatus(StatusLine(status, reason)) == Ok((status, reason))
  {
    var d := Decimal(status);
    DigitsOfDecimal(status, "");
    var rest := d + " " + reason;
    assert StatusLine(status, reason) == "HTTP/1.0" + " " + rest;
    SplitAfter("HTTP/1.0", " ", rest, 2);
    SplitAfter(d, " ", reason, 1);
    assert Split(reason, " ", 0) == [reason];
    ParseDecimal(status);
  }

  lemma FieldRoundTrip(f: Field)
    requires ':' !in f.name
    ensures ParseField(Line(f)) == Some(Field(f.name, Strip(f.value)))
  {
    assert Line(f) == f.name + ":" + (" " + f.value);
    FieldAfterColon(f.name, " " + f.value);
    assert (" " + f.value)[1..] == f.value;
  }

  function Stripped(fields: seq<Field>): seq<Field> {
    if fields == [] then [] else [Field(fields[0].name, Strip(fields[0].value))] + Stripped(fields[1..])
  }

  lemma {:induction false} FieldsRoundTrip(fields: seq<Field>)
    requires forall f | f in fields :: ':' !in f.name
    ensures ParseFields(Lines(fields)) == Stripped(fields)
  {
    if fields != [] {
      FieldRoundTrip(fields[0]);
      FieldsRoundTrip(fields[1..]);
      assert Lines(fields)[1..] == Lines(fields[1..]);
    }
  }

  lemma {:induction false} LinesAreLines(fields: seq<Field>)
    requires forall f | f in fields :: OneLine(f.name) && OneLine(f.value)
    ensures forall i | 0 <= i < |Lines(fields)| :: OneLine(Lines(fields)[i]) && Lines(fields)[i] != ""
  {
    if fields != [] {
      LinesAreLines(fields[1..]);
    }
  }

  /** Parsing a rendered message gives back its status, reason and fields, values without the blanks
      around them, and the body cut to the first declared Content-Length; the body may itself
      contain empty lines. */
  lemma ParseUndoesRender(status: nat, reason: string, fields: seq<Field>, body: string)
    requires OneLine(reason)
    requires forall f | f in fields :: OneLine(f.name) && OneLine(f.value) && ':' !in f.name
    ensures Parsed(Render(status, reason, fields, body)) ==
              match Cut(Stripped(fields), body)
              case Err(why) => Err(why)
              case Ok(kept) => Ok(Response(status, reason, Stripped(fields), kept))
  {
    var first := StatusLine(status, reason);
    var lines := [first] + Lines(fields);
    var raw, head := Render(status, reason, fields, body), Joined(lines);
    LinesAreLines(fields);
    DigitsOfDecimal(status, "");
    assert OneLine(first);
    assert forall i | 0 < i < |lines| :: lines[i] == Lines(fields)[i - 1];
    TerminatedIsJoined(lines);
    assert raw == head + (CRLF + CRLF + body);
    FindEnd(lines, body);
    assert raw[..|head|] == head && raw[|head| + 4..] == body;
    SplitJoinedLimit(lines, -1);
    StatusRoundTrip(status, reason);
    assert lines[1..] == Lines(fields);
    FieldsRoundTrip(fields);
  }

  // ----- what becomes of the body -----

  /** A declared length keeps a beginning of the body. It keeps as much as it says exactly when it is neither
      negative nor longer than the body, and everything exactly when it is at least as long, or there is nothing. */
  lemma LengthHonouredExactly(v: string, n: int, body: string)
    requires ParseInt(v) == Some(n)
    ensures CutTo(Some(v), body).Ok?
    ensures var kept := CutTo(Some(v), body).value;
            && kept <= body
            && (|kept| == n <==> 0 <= n <= |body|)
            && (kept == body <==> n >= |body| || body == "")
            && (n < 0 ==> |kept| == if n + |body| > 0 then n + |body| else 0)
  {
  }

  lemma {:induction false} StripStartStrips(s: string)
    ensures StripStart(s) == "" || !IsSpace(StripStart(s)[0])
  {
    if s != "" && IsSpace(s[0]) {
      StripStartStrips(s[1..]);
    }
  }

  lemma {:induction false} StripEndStrips(s: string)
    ensures StripEnd(s) <= s && StripEnd(StripEnd(s)) == StripEnd(s)
  {
    if s != "" && IsSpace(s[|s| - 1]) {
      StripEndStrips(s[..|s| - 1]);
    }
  }

  lemma ParseIgnoresBlanks(s: string)
    ensures ParseInt(Strip(s)) == ParseInt(s)
  {
    StripStartStrips(s);
    StripEndStrips(StripStart(s));
  }

  lemma {:induction false} StrippedValue(fields: seq<Field>, name: string)
    ensures FieldValue(Stripped(fields), name) ==
              match FieldValue(fields, name) case None => None case Some(v) => Some(Strip(v))
  {
    if fields != [] {
      StrippedValue(fields[1..], name);
      assert Stripped(fields)[1..] == Stripped(fields[1..]);
    }
  }

  ghost predicate Renderable(reason: string, fields: seq<Field>) {
    OneLine(reason) && forall f | f in fields :: OneLine(f.name) && OneLine(f.value) && ':' !in f.name
  }

  /** The message is parsed to its status, reason and fields, with this body. */
  ghost predicate ParsesTo(status: nat, reason: string, fields: seq<Field>, body: string, kept: string) {
    Parsed(Render(status, reason, fields, body)) == Ok(Response(status, reason, Stripped(fields), kept))
  }

  /** Whatever fields a message has: it is refused exactly when its first Content-Length is no number, and
      otherwise the body is cut as that length says. */
  lemma RefusedExactly(status: nat, reason: string, fields: seq<Field>, body: string)
    requires Renderable(reason, fields)
    ensures var length := FieldValue(fields, LENGTH);
            var r := Parsed(Render(status, reason, fields, body));
            && (r == Err(BadLength) <==> length.Some? && ParseInt(length.value).None?)
            && (r.Err? ==> r == Err(BadLength))
            && (r.Ok? ==> CutTo(length, body).Ok? && ParsesTo(status, reason, fields, body, CutTo(length, body).value))
  {
    ParseUndoesRender(status, reason, fields, body);
    StrippedValue(fields, LENGTH);
    if FieldValue(fields, LENGTH).Some? {
      ParseIgnoresBlanks(FieldValue(fields, LENGTH).value);
    }
  }

  /** The whole body comes back exactly when no length is declared, or the first one is a number that is not
      smaller than the body; or any number, when there is no body. */
  lemma WholeBodyExactly(status: nat, reason: string, fields: seq<Field>, body: string)
    requires Renderable(reason, fields)
    ensures ParsesTo(status, reason, fields, body, body) <==>
              match FieldValue(fields, LENGTH)
              case None => true
              case Some(v) => ParseInt(v).Some? && (ParseInt(v).value >= |body| || body == "")
  {
    RefusedExactly(status, reason, fields, body);
    var length := FieldValue(fields, LENGTH);
    if length.Some? && ParseInt(length.value).Some? {
      LengthHonouredExactly(length.value, ParseInt(length.value).value, body);
    }
  }

  /** A first Content-Length that is a decimal number keeps that many characters, or all if there are fewer. */
  lemma DeclaredLengthCuts(status: nat, reason: string, fields: seq<Field>, body: string, n: nat)
    requires Renderable(reason, fields) && FieldValue(fields, LENGTH) == Some(Decimal(n))
    ensures ParsesTo(status, reason, fields, body, if n <= |body| then body[..n] else body)
  {
    ParseDecimal(n);
    RefusedExactly(status, reason, fields, body);
  }

  lemma DecimalIsPlain(n: nat)
    ensures OneLine(Decimal(n)) && Strip(Decimal(n)) == Decimal(n)
  {
    DigitsOfDecimal(n, "");
    assert Decimal(n)[0] in Decimal(n) && Decimal(n)[|Decimal(n)| - 1] in Decimal(n);
  }

  lemma OneFieldValue(f: Field)
    requires Lower(f.name) == Lower(LENGTH)
    ensures FieldValue([f], LENGTH) == Some(f.value)
  {
    FieldValueMeaning([f], LENGTH, 0);
  }

  lemma OneStripped(f: Field)
    requires Strip(f.value) == f.value
    ensures Stripped([f]) == [f]
  {
    assert [f][1..] == [];
  }

  lemma DeclaredIsWhole(status: nat, reason: string, f: Field, body: string)
    requires Renderable(reason, [f]) && f.value == Decimal(|body|)
    requires FieldValue([f], LENGTH) == Some(f.value)
    ensures ParsesTo(status, reason, [f], body, body)
  {
    ParseDecimal(|body|);
    WholeBodyExactly(status, reason, [f], body);
  }

  /** In particular, the whole body comes back when its length is declared, in any case of letters. */
  lemma DeclaredBodyComesBack(status: nat, reason: string, name: string, body: string)
    requires OneLine(reason) && OneLine(name) && ':' !in name && Lower(name) == Lower(LENGTH)
    ensures var fields := [Field(name, Decimal(|body|))];
            Parsed(Render(status, reason, fields, body)) == Ok(Response(status, reason, fields, body))
  {
    var f := Field(name, Decimal(|body|));
    DecimalIsPlain(|body|);
    OneFieldValue(f);
    OneStripped(f);
    DeclaredIsWhole(status, reason, f, body);
  }

  /** A negative Content-Length is not refused: it cuts that many bytes off the end. */
  lemma NegativeLengthCutsTheEnd(body: string, n: nat)
    requires 0 < n <= |body|
    ensures Cut([Field(LENGTH, "-" + Decimal(n))], body) == Ok(body[..|body| - n])
  {
    ParseNegative(n);
  }

  lemma ParseNegative(n: nat)
    ensures ParseInt("-" + Decimal(n)) == Some(0 - n)
  {
    var v := "-" + Decimal(n);
    DigitsOfDecimal(n, "");
    assert v[1..] == Decimal(n) == Decimal(n) + "" && v[|v| - 1] in Decimal(n);
  }
}
