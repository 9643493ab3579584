/** `PIIHandler.detect_pii` and `redact`: redacting what was detected, and when that is complete. */
module PiiRedaction {
  import opened Options
  import opened PiiPayload

  datatype Category = NAME | EMAIL | PHONE | SSN | ADDRESS | DOB | FINANCIAL | IP_ADDRESS | CUSTOM
  datatype Sensitivity = LOW | MEDIUM | HIGH | CRITICAL
  datatype Source = FieldName | PatternMatch

  datatype Hint = Hint(text: string, category: Category, sensitivity: Sensitivity)

  /** A value pattern: `found` stands for the search of its regular expression. */
  datatype Pattern = Pattern(category: Category, sensitivity: Sensitivity, found: string -> bool)

  /** The handler's tables, in order; `lower` is the lower-casing of field names. */
  datatype Handler = Handler(hints: seq<Hint>, patterns: seq<Pattern>, lower: string -> string)

  datatype Mark = Mark(category: Category, sensitivity: Sensitivity, source: Source)

  datatype Detection = Detection(path: string, mark: Mark)

  /** `t in s` */
  predicate Contains(s: string, t: string) {
    t <= s || (s != "" && Contains(s[1..], t))
  }

  ghost predicate OccursAt(s: string, t: string, i: nat) {
    i + |t| <= |s| && s[i..i + |t|] == t
  }

  lemma SliceOfTail(s: string, i: nat, n: nat)
    requires s != "" && i + n <= |s[1..]|
    ensures s[1..][i..i + n] == s[i + 1..i + 1 + n]
  {
  }

  lemma {:induction false} ContainsMeaning(s: string, t: string)
    ensures Contains(s, t) <==> exists i: nat :: OccursAt(s, t, i)
  {
    if i: nat :| OccursAt(s, t, i) {
      if i == 0 {
        assert s[0..0 + |t|] == s[..|t|] && t <= s;
      } else {
        SliceOfTail(s, i - 1, |t|);
        assert OccursAt(s[1..], t, i - 1);
        ContainsMeaning(s[1..], t);
      }
    }
    if t <= s {
      assert s[0..0 + |t|] == s[..|t|] && OccursAt(s, t, 0);
    } else if Contains(s, t) {
      ContainsMeaning(s[1..], t);
      var i: nat :| OccursAt(s[1..], t, i);
      SliceOfTail(s, i, |t|);
      assert OccursAt(s, t, i + 1);
    }
  }

  function FirstHint(hints: seq<Hint>, name: string): Option<Mark> {
    if hints == [] then None
    else if Contains(name, hints[0].text) then Some(Mark(hints[0].category, hints[0].sensitivity, FieldName))
    else FirstHint(hints[1..], name)
  }

  function FirstPattern(patterns: seq<Pattern>, text: string): Option<Mark> {
    if patterns == [] then None
    else if patterns[0].found(text) then Some(Mark(patterns[0].category, patterns[0].sensitivity, PatternMatch))
    else FirstPattern(patterns[1..], text)
  }

  /** What is detected on one leaf: the first hint its key contains, else the first pattern found. */
  function Flag(h: Handler, key: string, v: Value): Option<Mark> {
    var byName := FirstHint(h.hints, h.lower(key));
    if byName.Some? then byName
    else if v.Text? then FirstPattern(h.patterns, v.text)
    else None
  }

  /** The first hint in the table that the name contains decides. */
  lemma {:induction false} FirstHintMeaning(hints: seq<Hint>, name: string)
    ensures match FirstHint(hints, name)
            case None => forall i | 0 <= i < |hints| :: !Contains(name, hints[i].text)
            case Some(mark) => exists i ::
              && 0 <= i < |hints| && Contains(name, hints[i].text)
              && mark == Mark(hints[i].category, hints[i].sensitivity, FieldName)
              && forall j | 0 <= j < i :: !Contains(name, hints[j].text)
  {
    if hints != [] && !Contains(name, hints[0].text) {
      FirstHintMeaning(hints[1..], name);
      if FirstHint(hints[1..], name).Some? {
        var rest, mark := hints[1..], FirstHint(hints[1..], name).value;
        var i :| && 0 <= i < |rest| && Contains(name, rest[i].text)
                 && mark == Mark(rest[i].category, rest[i].sensitivity, FieldName)
                 && forall j | 0 <= j < i :: !Contains(name, rest[j].text);
        assert hints[i + 1] == rest[i];
        forall j | 0 <= j < i + 1 ensures !Contains(name, hints[j].text) {
          assert j > 0 ==> hints[j] == rest[j - 1];
        }
      }
    }
  }

  /** The first pattern in the table that is found in the text decides. */
  lemma {:induction false} FirstPatternMeaning(patterns: seq<Pattern>, text: string)
    ensures match FirstPattern(patterns, text)
            case None => forall i | 0 <= i < |patterns| :: !patterns[i].found(text)
            case Some(mark) => exists i ::
              && 0 <= i < |patterns| && patterns[i].found(text)
              && mark == Mark(patterns[i].category, patterns[i].sensitivity, PatternMatch)
              && forall j | 0 <= j < i :: !patterns[j].found(text)
  {
    if patterns != [] && !patterns[0].found(text) {
      FirstPatternMeaning(patterns[1..], text);
      if FirstPattern(patterns[1..], text).Some? {
        var rest, mark := patterns[1..], FirstPattern(patterns[1..], text).value;
        var i :| && 0 <= i < |rest| && rest[i].found(text)
                 && mark == Mark(rest[i].category, rest[i].sensitivity, PatternMatch)
                 && forall j | 0 <= j < i :: !rest[j].found(text);
        assert patterns[i + 1] == rest[i];
        forall j | 0 <= j < i + 1 ensures !patterns[j].found(text) {
          assert j > 0 ==> patterns[j] == rest[j - 1];
        }
      }
    }
  }

  /** Hint `i` is the first that the lowered key contains. */
  ghost predicate HintDecides(h: Handler, key: string, i: nat) {
    && i < |h.hints| && Contains(h.lower(key), h.hints[i].text)
    && forall j | 0 <= j < i :: !Contains(h.lower(key), h.hints[j].text)
  }

  ghost predicate NoHint(h: Handler, key: string) {
    forall j | 0 <= j < |h.hints| :: !Contains(h.lower(key), h.hints[j].text)
  }

  /** Pattern `i` is the first that is found in a text value. */
  ghost predicate PatternDecides(h: Handler, v: Value, i: nat) {
    && v.Text? && i < |h.patterns| && h.patterns[i].found(v.text)
    && forall j | 0 <= j < i :: !h.patterns[j].found(v.text)
  }

  /** Nothing is detected on a leaf exactly when its lowered key contains no hint and no pattern is found
      in a text value. The first hint decides; without one, the first pattern found decides. */
  ghost predicate MarkedRightly(h: Handler, key: string, v: Value, mark: Option<Mark>) {
    && (mark.None? <==>
          NoHint(h, key) && (v.Text? ==> forall i | 0 <= i < |h.patterns| :: !h.patterns[i].found(v.text)))
    && (forall i: nat | HintDecides(h, key, i) ::
          mark == Some(Mark(h.hints[i].category, h.hints[i].sensitivity, FieldName)))
    && (forall i: nat | NoHint(h, key) && PatternDecides(h, v, i) ::
          mark == Some(Mark(h.patterns[i].category, h.patterns[i].sensitivity, PatternMatch)))
  }

  lemma FlagMeaning(h: Handler, key: string, v: Value)
    ensures MarkedRightly(h, key, v, Flag(h, key, v))
  {
    FirstHintMeaning(h.hints, h.lower(key));
    if v.Text? {
      FirstPatternMeaning(h.patterns, v.text);
    }
  }

  function FieldPath(prefix: string, key: string): string {
    if prefix == "" then key else prefix + "." + key
  }

  function DetectEntry(h: Handler, e: Entry, prefix: string): seq<Detection>
    decreases e, 1
  {
    match e.value
    case Dict(entries) => Detect(h, entries, FieldPath(prefix, e.key))
    case _ =>
      match Flag(h, e.key, e.value)
      case Some(mark) => [Detection(FieldPath(prefix, e.key), mark)]
      case None => []
  }

  function Detect(h: Handler, p: Payload, prefix: string): seq<Detection>
    decreases p, 0
  {
    if p == [] then [] else DetectEntry(h, p[0], prefix) + Detect(h, p[1..], prefix)
  }

  /** The report follows the order of the payload: what comes first is reported first. */
  lemma {:induction false} DetectInOrder(h: Handler, a: Payload, b: Payload, prefix: string)
    ensures Detect(h, a + b, prefix) == Detect(h, a, prefix) + Detect(h, b, prefix)
    decreases |a|
  {
    if a == [] {
      assert a + b == b;
    } else {
      assert (a + b)[1..] == a[1..] + b;
      DetectInOrder(h, a[1..], b, prefix);
    }
  }

  /** The loops of `detect_pii`. */
  method DetectPii(h: Handler, p: Payload, prefix: string) returns (found: seq<Detection>)
    ensures found == Detect(h, p, prefix)
    decreases p
  {
    found := [];
    assert p[0..] == p;
    for i := 0 to |p|
      invariant Detect(h, p, prefix) == found + Detect(h, p[i..], prefix)
    {
      assert p[i..][1..] == p[i + 1..];
      var path := FieldPath(prefix, p[i].key);
      if p[i].value.Dict? {
        var inner := DetectPii(h, p[i].value.entries, path);
        found := found + inner;
        continue;
      }
      var mark := FlagLeaf(h, p[i].key, p[i].value);
      if mark.Some? {
        found := found + [Detection(path, mark.value)];
      }
    }
  }

  method FlagLeaf(h: Handler, key: string, v: Value) returns (mark: Option<Mark>)
    ensures mark == Flag(h, key, v) && MarkedRightly(h, key, v, mark)
  {
    FlagMeaning(h, key, v);
    var name := h.lower(key);
    assert h.hints[0..] == h.hints && h.patterns[0..] == h.patterns;
    for i := 0 to |h.hints|
      invariant FirstHint(h.hints, name) == FirstHint(h.hints[i..], name)
    {
      assert h.hints[i..][1..] == h.hints[i + 1..];
      if Contains(name, h.hints[i].text) {
        return Some(Mark(h.hints[i].category, h.hints[i].sensitivity, FieldName));
      }
    }
    if v.Text? {
      for i := 0 to |h.patterns|
        invariant FirstPattern(h.patterns, v.text) == FirstPattern(h.patterns[i..], v.text)
      {
        assert h.patterns[i..][1..] == h.patterns[i + 1..];
        if h.patterns[i].found(v.text) {
          return Some(Mark(h.patterns[i].category, h.patterns[i].sensitivity, PatternMatch));
        }
      }
    }
    mark := None;
  }

  // ----- redaction -----

  function Paths(found: seq<Detection>): seq<string> {
    if found == [] then [] else [found[0].path] + Paths(found[1..])
  }

  function RedactAll(p: Payload, fields: seq<string>): Payload
    decreases |fields|
  {
    if fields == [] then p else RedactAll(RedactAt(p, Split(fields[0])), fields[1..])
  }

  /** `redact`: the fields named, or, when none are named and that is asked for, the detected ones. */
  method Redact(h: Handler, p: Payload, fields: Option<seq<string>>, allDetected: bool) returns (result: Payload)
    ensures result == RedactAll(p, if fields.Some? then fields.value
                                   else if allDetected then Paths(Detect(h, p, "")) else [])
  {
    result := p;
    var chosen: seq<string> := [];
    if fields.Some? {
      chosen := fields.value;
    } else if allDetected {
      var found := DetectPii(h, p, "");
      chosen := Paths(found);
    }
    if chosen == [] {
      return;
    }
    assert chosen[0..] == chosen;
    for i := 0 to |chosen|
      invariant RedactAll(p, chosen) == RedactAll(result, chosen[i..])
    {
      assert chosen[i..][1..] == chosen[i + 1..];
      result := RedactAt(result, Split(chosen[i]));
    }
  }

  /** Redaction removes the leaves at and below the named paths, and nothing else. */
  lemma {:induction false} RedactAllEffect(p: Payload, fields: seq<string>, ks: seq<string>)
    ensures LeafAt(RedactAll(p, fields), ks) ==
              if exists f :: f in fields && IsPrefix(Split(f), ks) then None else LeafAt(p, ks)
    decreases |fields|
  {
    if fields != [] {
      RedactAtEffect(p, Split(fields[0]), ks);
      RedactAllEffect(RedactAt(p, Split(fields[0])), fields[1..], ks);
      assert forall f :: f in fields <==> f == fields[0] || f in fields[1..];
    }
  }

  lemma {:induction false} RedactAllKeepsDicts(p: Payload, fields: seq<string>, ks: seq<string>)
    requires forall f | f in fields :: !IsPrefix(Split(f), ks)
    ensures IsDict(RedactAll(p, fields), ks) <==> IsDict(p, ks)
    decreases |fields|
  {
    if fields != [] {
      RedactAtKeepsDicts(p, Split(fields[0]), ks);
      RedactAllKeepsDicts(RedactAt(p, Split(fields[0])), fields[1..], ks);
    }
  }

  ghost predicate IsDict(p: Payload, ks: seq<string>) {
    Lookup(p, ks).Some? && Lookup(p, ks).value.Dict?
  }

  // ----- detection, key path by key path -----

  /** The leaf at `ks` is detected. */
  ghost predicate Flagged(h: Handler, p: Payload, ks: seq<string>) {
    ks != [] && LeafAt(p, ks).Some? && Flag(h, ks[|ks| - 1], LeafAt(p, ks).value).Some?
  }

  /** What detection says of the leaf at `ks`. */
  ghost function Report(h: Handler, p: Payload, prefix: string, ks: seq<string>): Detection
    requires Flagged(h, p, ks)
  {
    Detection(PathFrom(prefix, ks), Flag(h, ks[|ks| - 1], LeafAt(p, ks).value).value)
  }

  lemma {:induction false} DetectedIsFlagged(h: Handler, p: Payload, prefix: string, d: Detection)
    returns (ks: seq<string>)
    requires Unique(p) && d in Detect(h, p, prefix)
    ensures Flagged(h, p, ks) && d == Report(h, p, prefix, ks)
    decreases p
  {
    var i := DetectedAt(h, p, prefix, d);
    var e := p[i];
    GetUnique(p, i);
    match e.value {
      case Dict(entries) =>
        var rest := DetectedIsFlagged(h, entries, FieldPath(prefix, e.key), d);
        ks := [e.key] + rest;
        assert ks[1..] == rest && ks[|ks| - 1] == rest[|rest| - 1];
        assert LeafAt(p, ks) == LeafAt(entries, rest);
        assert PathFrom(prefix, ks) == PathFrom(FieldPath(prefix, e.key), rest);
      case _ =>
        ks := [e.key];
        assert ks[1..] == [] && LeafAt(p, ks) == Some(e.value);
        assert PathFrom(prefix, ks) == PathFrom(FieldPath(prefix, e.key), []) == FieldPath(prefix, e.key);
        assert Flagged(h, p, ks);
    }
  }

  lemma {:induction false} PathsMembers(found: seq<Detection>, path: string)
    ensures path in Paths(found) <==> exists d :: d in found && d.path == path
  {
    if found != [] {
      PathsMembers(found[1..], path);
      assert forall d :: d in found <==> d == found[0] || d in found[1..];
    }
  }

  lemma {:induction false} DetectedAt(h: Handler, p: Payload, prefix: string, d: Detection) returns (i: nat)
    requires d in Detect(h, p, prefix)
    ensures i < |p| && d in DetectEntry(h, p[i], prefix)
    decreases |p|
  {
    if d in DetectEntry(h, p[0], prefix) {
      i := 0;
    } else {
      i := DetectedAt(h, p[1..], prefix, d);
      i := i + 1;
    }
  }

  lemma {:induction false} EntryIsDetected(h: Handler, p: Payload, prefix: string, i: nat, d: Detection)
    requires i < |p| && d in DetectEntry(h, p[i], prefix)
    ensures d in Detect(h, p, prefix)
    decreases |p|
  {
    if i > 0 {
      EntryIsDetected(h, p[1..], prefix, i - 1, d);
    }
  }

  lemma {:induction false} FlaggedIsDetected(h: Handler, p: Payload, prefix: string, ks: seq<string>)
    requires Flagged(h, p, ks)
    ensures Report(h, p, prefix, ks) in Detect(h, p, prefix)
    decreases |ks|
  {
    var i := GetIn(p, ks[0]);
    assert PathFrom(prefix, ks) == PathFrom(FieldPath(prefix, ks[0]), ks[1..]);
    if |ks| > 1 {
      assert ks[1..][|ks| - 2] == ks[|ks| - 1];
      FlaggedIsDetected(h, p[i].value.entries, FieldPath(prefix, ks[0]), ks[1..]);
    }
    EntryIsDetected(h, p, prefix, i, Report(h, p, prefix, ks));
  }

  /** Detection reports exactly the detected leaves, each under its path string, with its category, its
      sensitivity and how it was detected. */
  lemma DetectExactly(h: Handler, p: Payload, d: Detection)
    requires Unique(p)
    ensures d in Detect(h, p, "") <==>
              exists ks :: && ks != [] && LeafAt(p, ks).Some? && PathFrom("", ks) == d.path
                           && MarkedRightly(h, ks[|ks| - 1], LeafAt(p, ks).value, Some(d.mark))
  {
    if d in Detect(h, p, "") {
      var ks := DetectedIsFlagged(h, p, "", d);
      FlagMeaning(h, ks[|ks| - 1], LeafAt(p, ks).value);
    }
    if ks :| && ks != [] && LeafAt(p, ks).Some? && PathFrom("", ks) == d.path
             && MarkedRightly(h, ks[|ks| - 1], LeafAt(p, ks).value, Some(d.mark))
    {
      MarkedOneWay(h, ks[|ks| - 1], LeafAt(p, ks).value, Some(d.mark));
      FlaggedIsDetected(h, p, "", ks);
    }
  }

  /** Only one mark is right. */
  lemma MarkedOneWay(h: Handler, key: string, v: Value, mark: Option<Mark>)
    requires MarkedRightly(h, key, v, mark)
    ensures mark == Flag(h, key, v)
  {
    FirstHintMeaning(h.hints, h.lower(key));
    if v.Text? {
      FirstPatternMeaning(h.patterns, v.text);
    }
    if i: nat :| HintDecides(h, key, i) {
    }
    if i: nat :| PatternDecides(h, v, i) {
    }
  }

  lemma PathsExactly(h: Handler, p: Payload, path: string)
    requires Unique(p)
    ensures path in Paths(Detect(h, p, "")) <==> exists ks :: Flagged(h, p, ks) && PathFrom("", ks) == path
  {
    PathsMembers(Detect(h, p, ""), path);
    if d :| d in Detect(h, p, "") && d.path == path {
      var ks := DetectedIsFlagged(h, p, "", d);
    }
    if ks :| Flagged(h, p, ks) && PathFrom("", ks) == path {
      FlaggedIsDetected(h, p, "", ks);
    }
  }

  // ----- completeness -----

  ghost function Redacted(h: Handler, p: Payload): Payload {
    RedactAll(p, Paths(Detect(h, p, "")))
  }

  /** A detected leaf survives unless the split path string of some detected leaf leads to it or above it. */
  lemma SurvivesExactly(h: Handler, p: Payload, ks: seq<string>)
    requires Unique(p)
    ensures LeafAt(Redacted(h, p), ks) ==
              if exists other :: Flagged(h, p, other) && IsPrefix(Split(PathFrom("", other)), ks) then None
              else LeafAt(p, ks)
  {
    var fields := Paths(Detect(h, p, ""));
    RedactAllEffect(p, fields, ks);
    forall f ensures f in fields <==> exists other :: Flagged(h, p, other) && PathFrom("", other) == f {
      PathsExactly(h, p, f);
    }
    if exists f :: f in fields && IsPrefix(Split(f), ks) {
      var f :| f in fields && IsPrefix(Split(f), ks);
      var other :| Flagged(h, p, other) && PathFrom("", other) == f;
    }
  }

  /** The split path string of some detected leaf leads to `ks` or above it. */
  ghost predicate Reached(h: Handler, p: Payload, ks: seq<string>) {
    exists other :: Flagged(h, p, other) && IsPrefix(Split(PathFrom("", other)), ks)
  }

  /** Redacting what was detected leaves nothing to detect exactly when every detected leaf is reached by the
      path string of some detected leaf, its own or another. */
  lemma RedactionCompleteExactly(h: Handler, p: Payload)
    requires Unique(p)
    ensures Detect(h, Redacted(h, p), "") == [] <==> forall ks | Flagged(h, p, ks) :: Reached(h, p, ks)
  {
    var left := Redacted(h, p);
    forall ks ensures Flagged(h, left, ks) <==> Flagged(h, p, ks) && !Reached(h, p, ks) {
      SurvivesExactly(h, p, ks);
    }
    if Detect(h, left, "") != [] {
      RedactAllUnique(p, Paths(Detect(h, p, "")));
      var ks := DetectedIsFlagged(h, left, "", Detect(h, left, "")[0]);
    }
    if ks :| Flagged(h, left, ks) {
      FlaggedIsDetected(h, left, "", ks);
    }
  }

  /** A leaf does not lie below another leaf. */
  lemma {:induction false} LeafBelowLeaf(p: Payload, a: seq<string>, b: seq<string>)
    requires LeafAt(p, a).Some? && LeafAt(p, b).Some? && IsPrefix(a, b)
    ensures a == b
    decreases |a|
  {
    if |a| > 1 {
      var entries := Get(p, a[0]).value.entries;
      LeafBelowLeaf(entries, a[1..], b[1..]);
    }
  }

  /** No key on the path of a detected leaf contains a dot. */
  ghost predicate DotFree(h: Handler, p: Payload) {
    forall ks | Flagged(h, p, ks) :: AllDots(ks) == 0
  }

  /** No detected leaf of two or more keys lies below an empty key at the top. */
  ghost predicate NoEmptyTop(h: Handler, p: Payload) {
    forall ks | Flagged(h, p, ks) :: ks[0] != "" || |ks| == 1
  }

  /** What takes a detected leaf with a dotted path away is a detected leaf with a dotted, shorter path. */
  lemma TakenByShorter(h: Handler, p: Payload, ks: seq<string>, other: seq<string>)
    requires Unique(p) && NoEmptyTop(h, p) && Flagged(h, p, ks) && AllDots(ks) > 0
    requires Flagged(h, p, other) && IsPrefix(Split(PathFrom("", other)), ks)
    ensures AllDots(other) > 0 && |other| < |ks|
  {
    SplitPath(other);
    SpelledDots(other);
    if AllDots(other) == 0 {
      LeafBelowLeaf(p, other, ks);
      assert false;
    }
  }

  /** Some detected leaf with a dotted path survives its own redaction. */
  lemma {:induction false} DottedSurvives(h: Handler, p: Payload, ks: seq<string>) returns (left: seq<string>)
    requires Unique(p) && NoEmptyTop(h, p) && Flagged(h, p, ks) && AllDots(ks) > 0
    ensures Flagged(h, p, left) && !Reached(h, p, left)
    decreases |ks|
  {
    if Reached(h, p, ks) {
      var other :| Flagged(h, p, other) && IsPrefix(Split(PathFrom("", other)), ks);
      TakenByShorter(h, p, ks, other);
      left := DottedSurvives(h, p, other);
    } else {
      left := ks;
    }
  }

  /** Without empty keys at the top, redaction is complete exactly when no detected path has a dotted key. */
  lemma CompleteExactlyWhenDotFree(h: Handler, p: Payload)
    requires Unique(p) && NoEmptyTop(h, p)
    ensures Detect(h, Redacted(h, p), "") == [] <==> DotFree(h, p)
  {
    RedactionCompleteExactly(h, p);
    forall ks | Flagged(h, p, ks) ensures DotFree(h, p) ==> Reached(h, p, ks) {
      SplitPath(ks);
    }
    if !DotFree(h, p) {
      var ks :| Flagged(h, p, ks) && AllDots(ks) != 0;
      var left := DottedSurvives(h, p, ks);
    }
  }

  /** Then exactly the detected leaves are removed. */
  lemma DotFreeRemovesExactly(h: Handler, p: Payload, ks: seq<string>)
    requires Unique(p) && NoEmptyTop(h, p) && DotFree(h, p)
    ensures LeafAt(Redacted(h, p), ks) == if Flagged(h, p, ks) then None else LeafAt(p, ks)
  {
    SurvivesExactly(h, p, ks);
    forall other | Flagged(h, p, other) ensures Split(PathFrom("", other)) == other {
      SplitPath(other);
    }
    if exists other :: Flagged(h, p, other) && IsPrefix(other, ks) && LeafAt(p, ks).Some? {
      var other :| Flagged(h, p, other) && IsPrefix(other, ks);
      LeafBelowLeaf(p, other, ks);
    }
  }

  /** And every nested dict stays where it was, if only as an empty one. */
  lemma DotFreeKeepsDicts(h: Handler, p: Payload, ks: seq<string>)
    requires Unique(p) && NoEmptyTop(h, p) && DotFree(h, p)
    ensures IsDict(p, ks) ==> IsDict(Redacted(h, p), ks)
  {
    var fields := Paths(Detect(h, p, ""));
    if IsDict(p, ks) {
      forall f | f in fields ensures !IsPrefix(Split(f), ks) {
        PathsExactly(h, p, f);
        var other :| Flagged(h, p, other) && PathFrom("", other) == f;
        SplitPath(other);
        DictBelowLeaf(p, other, ks);
      }
      RedactAllKeepsDicts(p, fields, ks);
    }
  }

  lemma {:induction false} DictBelowLeaf(p: Payload, a: seq<string>, b: seq<string>)
    requires LeafAt(p, a).Some? && IsDict(p, b)
    ensures !IsPrefix(a, b)
    decreases |a|
  {
    if IsPrefix(a, b) && |a| > 1 {
      assert IsPrefix(a[1..], b[1..]);
      DictBelowLeaf(Get(p, a[0]).value.entries, a[1..], b[1..]);
    }
  }

  lemma {:induction false} RedactAllUnique(p: Payload, fields: seq<string>)
    requires Unique(p)
    ensures Unique(RedactAll(p, fields))
    decreases |fields|
  {
    if fields != [] {
      RedactAtUnique(p, Split(fields[0]));
      RedactAllUnique(RedactAt(p, Split(fields[0])), fields[1..]);
    }
  }

  // ----- empty keys -----

  ghost predicate AllEmpty(ks: seq<string>) {
    forall i | 0 <= i < |ks| :: ks[i] == ""
  }

  ghost predicate EmptyPathDetected(h: Handler, p: Payload) {
    exists ks :: Flagged(h, p, ks) && AllEmpty(ks)
  }

  lemma {:induction false} SpelledEmpty(ks: seq<string>)
    requires ks != []
    ensures Spelled(ks) == [""] <==> AllEmpty(ks)
    decreases |ks|
  {
    if |ks| > 1 && ks[0] == "" {
      SpelledEmpty(ks[1..]);
      assert forall i | 0 < i < |ks| :: ks[i] == ks[1..][i - 1];
    } else if |ks| == 1 {
      assert ks == [ks[0]];
    } else {
      assert !AllEmpty(ks);
    }
  }

  /** Without dotted keys, a detected leaf below an empty key at the top survives, unless some detected path
      consists of empty keys: that one removes everything below the key. */
  lemma EmptyTopSurvivesExactly(h: Handler, p: Payload, ks: seq<string>)
    requires Unique(p) && DotFree(h, p) && Flagged(h, p, ks) && |ks| > 1 && ks[0] == ""
    ensures Flagged(h, Redacted(h, p), ks) <==> !EmptyPathDetected(h, p)
  {
    SurvivesExactly(h, p, ks);
    forall other | Flagged(h, p, other) ensures IsPrefix(Split(PathFrom("", other)), ks) <==> AllEmpty(other) {
      SplitPath(other);
      SpelledEmpty(other);
      assert IsPrefix(Spelled(other), ks) <==> Spelled(other) == [""];
    }
  }

  /** Without dotted keys, redaction is complete exactly when no detected leaf lies below an empty key at the
      top, or some detected path consists of empty keys. */
  lemma DotFreeCompleteExactly(h: Handler, p: Payload)
    requires Unique(p) && DotFree(h, p)
    ensures Detect(h, Redacted(h, p), "") == [] <==>
              NoEmptyTop(h, p) || EmptyPathDetected(h, p)
  {
    RedactionCompleteExactly(h, p);
    forall ks | Flagged(h, p, ks)
      ensures Reached(h, p, ks) <==> ks[0] != "" || |ks| == 1 || EmptyPathDetected(h, p)
    {
      if |ks| > 1 && ks[0] == "" {
        EmptyTopSurvivesExactly(h, p, ks);
        SurvivesExactly(h, p, ks);
      } else {
        SplitPath(ks);
      }
    }
  }

  /** So a payload whose one leaf lies below an empty key is not changed at all. */
  lemma EmptyKeyDefeatsRedaction(h: Handler, key: string, v: Value)
    requires Flag(h, key, v).Some? && !v.Dict? && key != "" && Dots(key) == 0
    ensures var p := [Entry("", Dict([Entry(key, v)]))];
            Unique(p) && AllDots(["", key]) == 0 && Flagged(h, p, ["", key]) && Redacted(h, p) == p
  {
    var inner := [Entry(key, v)];
    var p := [Entry("", Dict(inner))];
    assert inner[1..] == [] && p[1..] == [] && ["", key][1..] == [key] && [key][1..] == [];
    var found := [Detection(key, Flag(h, key, v).value)];
    assert DetectEntry(h, inner[0], "") == found && Detect(h, [], "") == [];
    assert Detect(h, inner, "") == found && Detect(h, p, "") == found && found[1..] == [];
    assert Paths(found) == [key];
    SplitWord(key, "");
    assert AllDots(["", key]) == Dots("") + AllDots([key]) && AllDots([key]) == Dots(key) + AllDots([]);
    assert Remove(p, key) == [p[0]] + Remove([], key) == p;
    assert RedactAll(p, [key]) == RedactAll(p, []);
    assert Lookup(p, ["", key]) == Lookup(inner, [key]) == Some(v);
  }
}
