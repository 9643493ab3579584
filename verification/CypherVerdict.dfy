/** `_classify` and the loop of `scan_source` over one f-string: which interpolations are reported,
    and what an f-string without findings is known to be. */
module CypherVerdict {
  import opened Blanks
  import opened Options
  import opened CypherAst
  import opened CypherRaw
  import opened CypherRules
  import opened CypherSoundness

  datatype Kind = QuotedValue | BackQuoted | ParameterName | Label | PropertyName | PageBound | RawValue

  predicate EndsWith(s: string, t: string) {
    |t| <= |s| && s[|s| - |t|..] == t
  }

  predicate IsWordChar(c: char) {
    'a' <= c <= 'z' || 'A' <= c <= 'Z' || '0' <= c <= '9' || c == '_'
  }

  /** The text ends with `word`, and no word character stands before it. */
  predicate EndsWithWord(s: string, word: string) {
    EndsWith(s, word) && (|s| == |word| || !IsWordChar(s[|s| - |word| - 1]))
  }

  function Tail(before: string): Option<char> {
    if before == "" then None else Some(before[|before| - 1])
  }

  /** Facts a scan works with: the validated ones and the raw ones. */
  datatype Known = Known(safe: Marks, funcs: set<string>, raw: Marks)

  /** The branches of `_classify`, given the two judgements on the interpolated expression. */
  function Verdict(before: string, safe: bool, raw: bool): Option<Kind> {
    var tail := Tail(before);
    if tail == Some('\'') || tail == Some('"') then Some(QuotedValue)
    else if tail == Some('`') then if safe then None else Some(BackQuoted)
    else if tail == Some('$') then if safe then None else Some(ParameterName)
    else if tail == Some(':') then if safe then None else Some(Label)
    else if tail == Some('.') && !EndsWith(before, "..") then if safe then None else Some(PropertyName)
    else if EndsWithWord(StripEnd(before), "LIMIT") || EndsWithWord(StripEnd(before), "SKIP") then Some(PageBound)
    else if safe then None
    else if raw then Some(RawValue)
    else None
  }

  function Classify(before: string, e: Expr, f: Known, m: Module, s: nat): Option<Kind> {
    Verdict(before, IsSafe(f.safe, f.funcs, m, s, e), IsRaw(f.raw, f.funcs, m, s, e))
  }

  // The role an interpolation plays, read off the text before it.

  ghost predicate EndsIn(before: string, c: char) {
    before != "" && before[|before| - 1] == c
  }

  ghost predicate AsQuotedValue(before: string) {
    EndsIn(before, '\'') || EndsIn(before, '"')
  }

  /** One dot; two dots are a range. */
  ghost predicate AsPropertyName(before: string) {
    EndsIn(before, '.') && !(|before| >= 2 && before[|before| - 2] == '.')
  }

  ghost predicate AsIdentifier(before: string) {
    EndsIn(before, '`') || EndsIn(before, '$') || EndsIn(before, ':') || AsPropertyName(before)
  }

  /** The text is `head`, the keyword and blanks, and the keyword does not continue a word. */
  ghost predicate IsKeywordAt(before: string, head: string, word: string, gap: string) {
    && before == head + word + gap
    && (forall c | c in gap :: IsSpace(c))
    && (head == "" || !IsWordChar(head[|head| - 1]))
  }

  ghost predicate EndsInKeyword(before: string, word: string) {
    exists head, gap :: IsKeywordAt(before, head, word, gap)
  }

  ghost predicate AsPageBound(before: string) {
    EndsInKeyword(before, "LIMIT") || EndsInKeyword(before, "SKIP")
  }

  ghost predicate AsFragment(before: string) {
    !AsQuotedValue(before) && !AsIdentifier(before) && !AsPageBound(before)
  }

  /** The literal text standing immediately before part `i` of an f-string. */
  function Before(parts: seq<Expr>, i: nat): string
    requires i <= |parts|
  {
    if i == 0 || parts[i - 1].FormattedValue? then ""
    else if parts[i - 1].StrConst? then parts[i - 1].text
    else Before(parts, i - 1)
  }

  /** Part `j` is the last literal or interpolation before part `i`. */
  ghost predicate LastBefore(parts: seq<Expr>, j: nat, i: nat) {
    && j < i <= |parts| && (parts[j].StrConst? || parts[j].FormattedValue?)
    && forall l | j < l < i :: !parts[l].StrConst? && !parts[l].FormattedValue?
  }

  /** It is the last literal before the part, unless an interpolation stands between. */
  lemma {:induction false} BeforeMeaning(parts: seq<Expr>, i: nat, j: nat)
    requires LastBefore(parts, j, i)
    ensures Before(parts, i) == if parts[j].StrConst? then parts[j].text else ""
  {
    if j < i - 1 {
      BeforeMeaning(parts, i - 1, j);
    }
  }

  lemma {:induction false} NothingBefore(parts: seq<Expr>, i: nat)
    requires i <= |parts| && forall j | 0 <= j < i :: !parts[j].StrConst? && !parts[j].FormattedValue?
    ensures Before(parts, i) == ""
  {
    if i > 0 {
      NothingBefore(parts, i - 1);
    }
  }

  /** An interpolated dotted read of the domain spec, in the position of a fragment. */
  ghost predicate SpecReadInFragment(parts: seq<Expr>, i: nat) {
    i < |parts| && parts[i].FormattedValue? && StartsRaw(parts[i].shown) && AsFragment(Before(parts, i))
  }

  datatype Finding = Finding(part: nat, kind: Kind)

  /** The loop over the parts of one f-string. */
  method ScanParts(parts: seq<Expr>, f: Known, m: Module, s: nat) returns (findings: seq<Finding>)
    ensures forall i: nat, k :: Finding(i, k) in findings <==>
              i < |parts| && parts[i].FormattedValue? && Classify(Before(parts, i), parts[i].shown, f, m, s) == Some(k)
    ensures forall i, j | 0 <= i < j < |findings| :: findings[i].part < findings[j].part
    ensures forall i: nat | SpecReadInFragment(parts, i) :: Finding(i, RawValue) in findings
  {
    findings := [];
    var before := "";
    for n := 0 to |parts|
      invariant before == Before(parts, n)
      invariant Reported(parts, f, m, s, findings, n)
      invariant forall i, j | 0 <= i < j < |findings| :: findings[i].part < findings[j].part
      invariant forall i | 0 <= i < |findings| :: findings[i].part < n
    {
      ReportOneMore(parts, f, m, s, findings, n);
      if parts[n].StrConst? {
        before := parts[n].text;
      } else if parts[n].FormattedValue? {
        var kind := Classify(before, parts[n].shown, f, m, s);
        before := "";
        if kind.Some? {
          findings := findings + [Finding(n, kind.value)];
        }
      }
    }
    forall i: nat | SpecReadInFragment(parts, i) ensures Finding(i, RawValue) in findings {
      SpecReadIsReported(parts, f, m, s, i);
    }
  }

  /** The findings on the first `n` parts. */
  ghost predicate Reported(parts: seq<Expr>, f: Known, m: Module, s: nat, findings: seq<Finding>, n: nat) {
    && n <= |parts|
    && forall i: nat, k :: Finding(i, k) in findings <==>
         i < n && parts[i].FormattedValue? && Classify(Before(parts, i), parts[i].shown, f, m, s) == Some(k)
  }

  lemma ReportOneMore(parts: seq<Expr>, f: Known, m: Module, s: nat, findings: seq<Finding>, n: nat)
    requires n < |parts| && Reported(parts, f, m, s, findings, n)
    ensures var kind :=
              if parts[n].FormattedValue? then Classify(Before(parts, n), parts[n].shown, f, m, s) else None;
            Reported(parts, f, m, s, findings + (if kind.Some? then [Finding(n, kind.value)] else []), n + 1)
  {
    var kind := if parts[n].FormattedValue? then Classify(Before(parts, n), parts[n].shown, f, m, s) else None;
    var more := findings + (if kind.Some? then [Finding(n, kind.value)] else []);
    forall i: nat, k
      ensures Finding(i, k) in more <==> Finding(i, k) in findings || (i == n && kind == Some(k))
    {
    }
  }

  lemma {:induction false} StripsGap(text: string, gap: string)
    requires text != "" && !IsSpace(text[|text| - 1]) && forall c | c in gap :: IsSpace(c)
    ensures StripEnd(text + gap) == text
  {
    if gap == "" {
      assert text + gap == text;
    } else {
      var all := text + gap;
      assert all[|all| - 1] == gap[|gap| - 1] && all[..|all| - 1] == text + gap[..|gap| - 1];
      StripsGap(text, gap[..|gap| - 1]);
    }
  }

  /** What the regular expression finds at the end of the text, trailing blanks aside. */
  lemma KeywordMeaning(before: string, word: string)
    requires word != "" && !IsSpace(word[|word| - 1])
    ensures EndsWithWord(StripEnd(before), word) <==> EndsInKeyword(before, word)
  {
    var text := StripEnd(before);
    if EndsWithWord(text, word) {
      var gap := StripEndMeaning(before);
      var head := text[..|text| - |word|];
      assert text == head + word && before == head + word + gap;
      assert IsKeywordAt(before, head, word, gap);
    }
    if head, gap :| IsKeywordAt(before, head, word, gap) {
      StripsGap(head + word, gap);
      assert text == head + word && text[|text| - |word|..] == word;
    }
  }

  lemma PageBoundMeaning(before: string)
    ensures EndsWithWord(StripEnd(before), "LIMIT") || EndsWithWord(StripEnd(before), "SKIP") <==> AsPageBound(before)
  {
    assert "LIMIT"[4] == 'T' && "SKIP"[3] == 'P';
    KeywordMeaning(before, "LIMIT");
    KeywordMeaning(before, "SKIP");
  }

  /** What ends in a keyword, blanks aside, ends neither in a quote nor in the sign of an identifier. */
  lemma KeywordIsNoTail(before: string)
    ensures AsPageBound(before) ==> !AsIdentifier(before) && !AsQuotedValue(before)
  {
    if EndsInKeyword(before, "LIMIT") {
      KeywordTail(before, "LIMIT");
    }
    if EndsInKeyword(before, "SKIP") {
      KeywordTail(before, "SKIP");
    }
  }

  lemma KeywordTail(before: string, word: string)
    requires EndsInKeyword(before, word) && word != "" && IsWordChar(word[|word| - 1])
    ensures before != "" && (IsWordChar(before[|before| - 1]) || IsSpace(before[|before| - 1]))
  {
    var head, gap :| IsKeywordAt(before, head, word, gap);
    assert if gap == "" then before[|before| - 1] == word[|word| - 1] else before[|before| - 1] == gap[|gap| - 1];
  }

  /** The branches by role. */
  lemma VerdictByRole(before: string, safe: bool, raw: bool, bound: bool)
    requires bound <==> EndsWithWord(StripEnd(before), "LIMIT") || EndsWithWord(StripEnd(before), "SKIP")
    ensures Verdict(before, safe, raw) ==
              if AsQuotedValue(before) then Some(QuotedValue)
              else if EndsIn(before, '`') then if safe then None else Some(BackQuoted)
              else if EndsIn(before, '$') then if safe then None else Some(ParameterName)
              else if EndsIn(before, ':') then if safe then None else Some(Label)
              else if AsPropertyName(before) then if safe then None else Some(PropertyName)
              else if bound then Some(PageBound)
              else if !safe && raw then Some(RawValue) else None
  {
    assert EndsIn(before, '.') ==> (EndsWith(before, "..") <==> |before| >= 2 && before[|before| - 2] == '.') by {
      if |before| >= 2 {
        assert before[|before| - 2..] == [before[|before| - 2], before[|before| - 1]];
      }
    }
  }

  /** What is refused is reported as what it is. */
  lemma ReportedByRole(before: string, safe: bool, raw: bool)
    ensures var v := Verdict(before, safe, raw);
            && (v == Some(QuotedValue) <==> AsQuotedValue(before))
            && (v == Some(BackQuoted) <==> EndsIn(before, '`') && !safe)
            && (v == Some(ParameterName) <==> EndsIn(before, '$') && !safe)
            && (v == Some(Label) <==> EndsIn(before, ':') && !safe)
            && (v == Some(PropertyName) <==> AsPropertyName(before) && !safe)
            && (v == Some(PageBound) <==> AsPageBound(before))
            && (v == Some(RawValue) <==> AsFragment(before) && !safe && raw)
  {
    PageBoundMeaning(before);
    KeywordIsNoTail(before);
    VerdictByRole(before, safe, raw, AsPageBound(before));
  }

  /** The documentation's table: the role of an interpolation decides what is accepted. */
  lemma AcceptedByRole(before: string, safe: bool, raw: bool)
    ensures Verdict(before, safe, raw).None? <==>
              || (AsIdentifier(before) && safe)
              || (AsFragment(before) && (safe || !raw))
  {
    PageBoundMeaning(before);
    KeywordIsNoTail(before);
    VerdictByRole(before, safe, raw, AsPageBound(before));
  }

  /** In the position of a fragment a dotted read of the domain spec is reported in every module, whatever has
      been marked. */
  lemma SpecReadIsReported(parts: seq<Expr>, f: Known, m: Module, s: nat, i: nat)
    requires SpecReadInFragment(parts, i)
    ensures Classify(Before(parts, i), parts[i].shown, f, m, s) == Some(RawValue)
  {
    var root, attrs :| root in RAW_ROOTS && attrs != [] && parts[i].shown == Chain(Name(root), attrs);
    SpecReadIsRaw(f.raw, f.funcs, m, s, root, attrs);
    assert !IsSafe(f.safe, f.funcs, m, s, parts[i].shown) by {
      SpecReadIsRaw(f.safe, f.funcs, m, s, root, attrs);
    }
    ReportedByRole(Before(parts, i), false, true);
  }

  /** `f"MATCH (n) {spec.filter}"` */
  lemma SpecFilterIsReported(f: Known, m: Module, s: nat)
    ensures var parts := [StrConst("MATCH (n) "), FormattedValue(Attribute(Name("spec"), "filter"), [])];
            SpecReadInFragment(parts, 1) && Classify(Before(parts, 1), parts[1].shown, f, m, s) == Some(RawValue)
  {
    var parts := [StrConst("MATCH (n) "), FormattedValue(Attribute(Name("spec"), "filter"), [])];
    assert ["filter"][..0] == [] && Chain(Name("spec"), ["filter"]) == parts[1].shown;
    assert StripEnd("MATCH (n) ") == "MATCH (n)" by {
      assert "MATCH (n) "[..9] == "MATCH (n)";
    }
    PageBoundMeaning("MATCH (n) ");
    SpecReadIsReported(parts, f, m, s, 1);
  }

  /** With consistent facts an interpolation without finding is neither quoted nor a page bound, and in an
      identifier position it is clean text in every run. Python reads an f-string in scope `site`, which is
      the linter's scope `s` but in the header of a function, where it must be validated at `site` too. */
  lemma NoFindingsMeansClean(parts: seq<Expr>, f: Known, m: Module, s: nat, site: nat, i: nat, t: Trace)
    requires Consistent(m, f.safe, f.funcs) && Plain(f.safe, f.funcs, m, site, JoinedStr(parts))
    requires i < |parts| && parts[i].FormattedValue?
    requires Classify(Before(parts, i), parts[i].shown, f, m, s).None?
    requires site != s ==> IsSafe(f.safe, f.funcs, m, site, parts[i].shown)
    ensures !AsQuotedValue(Before(parts, i)) && !AsPageBound(Before(parts, i))
    ensures AsIdentifier(Before(parts, i)) && Eval(m, site, parts[i].shown, t).Some? ==>
              Clean(Eval(m, site, parts[i].shown, t).value)
  {
    var before, e := Before(parts, i), parts[i].shown;
    AcceptedByRole(before, IsSafe(f.safe, f.funcs, m, s, e), IsRaw(f.raw, f.funcs, m, s, e));
    KeywordIsNoTail(before);
    if AsIdentifier(before) && Eval(m, site, e, t).Some? {
      ValidatedIsClean(m, f.safe, f.funcs, site, e, t);
    }
  }
}
