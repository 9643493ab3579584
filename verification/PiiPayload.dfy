/** Nested payloads, key paths and dotted path strings, as `PIIHandler` uses them: removal splits a path string
    at its dots to get a key path, and detection builds one from the keys, without empty ones at the start. */
module PiiPayload {

  import opened Options

  /** A payload value: a nested dict, a string, or anything else (numbers, lists, None). */
  datatype Value = Dict(entries: seq<Entry>) | Text(text: string) | Other(tag: nat)

  datatype Entry = Entry(key: string, value: Value)

  /** A dict, in insertion order. */
  type Payload = seq<Entry>

  /** Dict keys are unique, at every level. */
  ghost predicate Unique(p: Payload) {
    && (forall i, j | 0 <= i < j < |p| :: p[i].key != p[j].key)
    && (forall i | 0 <= i < |p| :: p[i].value.Dict? ==> Unique(p[i].value.entries))
  }

  function Get(p: Payload, key: string): Option<Value> {
    if p == [] then None else if p[0].key == key then Some(p[0].value) else Get(p[1..], key)
  }

  function Lookup(p: Payload, ks: seq<string>): Option<Value>
    decreases |ks|
  {
    if ks == [] then None
    else if |ks| == 1 then Get(p, ks[0])
    else
      match Get(p, ks[0])
      case Some(Dict(entries)) => Lookup(entries, ks[1..])
      case _ => None
  }

  /** The value at a key path, when it is not a dict. */
  function LeafAt(p: Payload, ks: seq<string>): Option<Value> {
    match Lookup(p, ks)
    case Some(Dict(_)) => None
    case v => v
  }

  ghost predicate IsPrefix(a: seq<string>, b: seq<string>) { a <= b }

  lemma {:induction false} GetIn(p: Payload, key: string) returns (i: nat)
    requires Get(p, key).Some?
    ensures i < |p| && p[i].key == key && p[i].value == Get(p, key).value
  {
    if p[0].key == key {
      i := 0;
    } else {
      i := GetIn(p[1..], key);
      i := i + 1;
    }
  }

  lemma {:induction false} GetUnique(p: Payload, i: nat)
    requires i < |p| && forall j | 0 <= j < i :: p[j].key != p[i].key
    ensures Get(p, p[i].key) == Some(p[i].value)
  {
    if i > 0 {
      GetUnique(p[1..], i - 1);
    }
  }

  // ----- removal -----

  function Remove(p: Payload, key: string): Payload {
    if p == [] then [] else if p[0].key == key then Remove(p[1..], key) else [p[0]] + Remove(p[1..], key)
  }

  /** The dict with the value at `key` replaced. */
  function Replace(p: Payload, key: string, v: Value): Payload {
    if p == [] then [] else [if p[0].key == key then Entry(key, v) else p[0]] + Replace(p[1..], key, v)
  }

  lemma {:induction false} GetRemove(p: Payload, key: string, k: string)
    ensures Get(Remove(p, key), k) == if k == key then None else Get(p, k)
  {
    if p != [] {
      GetRemove(p[1..], key, k);
      if p[0].key != key {
        assert ([p[0]] + Remove(p[1..], key))[1..] == Remove(p[1..], key);
      }
    }
  }

  lemma {:induction false} GetReplace(p: Payload, key: string, v: Value, k: string)
    ensures Get(Replace(p, key, v), k) == if k == key && Get(p, k).Some? then Some(v) else Get(p, k)
  {
    if p != [] {
      GetReplace(p[1..], key, v, k);
      assert Replace(p, key, v)[1..] == Replace(p[1..], key, v);
    }
  }

  /** `_redact_field_at_path` */
  function RedactAt(p: Payload, path: seq<string>): Payload
    requires path != []
    decreases |path|
  {
    if |path| == 1 then Remove(p, path[0])
    else
      match Get(p, path[0])
      case Some(Dict(entries)) => Replace(p, path[0], Dict(RedactAt(entries, path[1..])))
      case _ => p
  }

  /** A removal takes away the leaves at and below its path, and no others; dicts elsewhere stay. */
  lemma {:induction false} RedactAtEffect(p: Payload, path: seq<string>, ks: seq<string>)
    requires path != []
    ensures LeafAt(RedactAt(p, path), ks) == if IsPrefix(path, ks) then None else LeafAt(p, ks)
    decreases |path|
  {
    if ks != [] {
      GetRemove(p, path[0], ks[0]);
      if |path| == 1 {
        assert IsPrefix(path, ks) <==> ks[0] == path[0];
      } else {
        match Get(p, path[0]) {
          case Some(Dict(entries)) =>
            GetReplace(p, path[0], Dict(RedactAt(entries, path[1..])), ks[0]);
            if |ks| > 1 {
              RedactAtEffect(entries, path[1..], ks[1..]);
              assert IsPrefix(path, ks) <==> path[0] == ks[0] && IsPrefix(path[1..], ks[1..]);
            }
          case _ =>
        }
      }
    }
  }

  /** A removal leaves a dict in place unless its path leads to it or above it. */
  lemma {:induction false} RedactAtKeepsDicts(p: Payload, path: seq<string>, ks: seq<string>)
    requires path != [] && !IsPrefix(path, ks)
    ensures Lookup(p, ks).Some? && Lookup(p, ks).value.Dict? <==>
            Lookup(RedactAt(p, path), ks).Some? && Lookup(RedactAt(p, path), ks).value.Dict?
    decreases |path|
  {
    if ks != [] {
      GetRemove(p, path[0], ks[0]);
      if |path| == 1 {
        assert IsPrefix(path, ks) <==> ks[0] == path[0];
      } else {
        match Get(p, path[0]) {
          case Some(Dict(entries)) =>
            GetReplace(p, path[0], Dict(RedactAt(entries, path[1..])), ks[0]);
            if |ks| > 1 {
              assert IsPrefix(path, ks) <==> path[0] == ks[0] && IsPrefix(path[1..], ks[1..]);
              if path[0] == ks[0] {
                RedactAtKeepsDicts(entries, path[1..], ks[1..]);
              }
            }
          case _ =>
        }
      }
    }
  }

  ghost predicate HasKey(p: Payload, key: string) {
    exists i :: 0 <= i < |p| && p[i].key == key
  }

  lemma {:induction false} RemoveKeys(p: Payload, key: string, k: string)
    requires forall i | 0 <= i < |p| :: p[i].key != k
    ensures !HasKey(Remove(p, key), k)
  {
    if p != [] {
      RemoveKeys(p[1..], key, k);
      var rest := Remove(p[1..], key);
      forall i | 0 <= i < |rest| ensures rest[i].key != k {
        assert HasKey(rest, rest[i].key);
      }
    }
  }

  lemma {:induction false} RemoveUnique(p: Payload, key: string)
    requires Unique(p)
    ensures Unique(Remove(p, key))
  {
    if p != [] {
      RemoveUnique(p[1..], key);
      var rest := Remove(p[1..], key);
      if p[0].key != key {
        forall i | 0 <= i < |p[1..]| ensures p[1..][i].key != p[0].key {
          assert p[i + 1] == p[1..][i];
        }
        RemoveKeys(p[1..], key, p[0].key);
      }
    }
  }

  lemma {:induction false} ReplaceUnique(p: Payload, key: string, v: Value)
    requires Unique(p) && (v.Dict? ==> Unique(v.entries))
    ensures Unique(Replace(p, key, v))
    ensures |Replace(p, key, v)| == |p| && forall i | 0 <= i < |p| :: Replace(p, key, v)[i].key == p[i].key
  {
    if p != [] {
      ReplaceUnique(p[1..], key, v);
      var rest := Replace(p[1..], key, v);
      forall i | 0 < i < |p| ensures Replace(p, key, v)[i] == rest[i - 1] && p[i] == p[1..][i - 1] {}
    }
  }

  lemma {:induction false} RedactAtUnique(p: Payload, path: seq<string>)
    requires Unique(p) && path != []
    ensures Unique(RedactAt(p, path))
    decreases |path|
  {
    if |path| == 1 {
      RemoveUnique(p, path[0]);
    } else {
      match Get(p, path[0])
      case Some(Dict(entries)) =>
        var i := GetIn(p, path[0]);
        RedactAtUnique(entries, path[1..]);
        ReplaceUnique(p, path[0], Dict(RedactAt(entries, path[1..])));
      case _ =>
    }
  }

  // ----- dotted path strings -----

  /** `s.split(".")` */
  function Split(s: string): seq<string> {
    if s == "" then [""]
    else
      var rest := Split(s[1..]);
      if s[0] == '.' then [""] + rest else [[s[0]] + rest[0]] + rest[1..]
  }

  function Join(ks: seq<string>): string
    requires ks != []
  {
    if |ks| == 1 then ks[0] else ks[0] + "." + Join(ks[1..])
  }

  function Dots(s: string): nat {
    if s == "" then 0 else (if s[0] == '.' then 1 else 0) + Dots(s[1..])
  }

  function AllDots(ks: seq<string>): nat {
    if ks == [] then 0 else Dots(ks[0]) + AllDots(ks[1..])
  }

  lemma {:induction false} DotsAppend(a: string, b: string)
    ensures Dots(a + b) == Dots(a) + Dots(b)
  {
    if a == "" {
      assert a + b == b;
    } else {
      assert (a + b)[1..] == a[1..] + b;
      DotsAppend(a[1..], b);
    }
  }

  lemma {:induction false} SplitCount(s: string)
    ensures |Split(s)| == 1 + Dots(s) && AllDots(Split(s)) == 0
  {
    if s != "" {
      SplitCount(s[1..]);
      var rest := Split(s[1..]);
      if s[0] == '.' {
        assert ([""] + rest)[1..] == rest;
      } else {
        var head := [s[0]] + rest[0];
        assert head[1..] == rest[0];
        assert ([head] + rest[1..])[1..] == rest[1..];
      }
    }
  }

  lemma {:induction false} JoinCount(ks: seq<string>)
    requires ks != []
    ensures Dots(Join(ks)) == |ks| - 1 + AllDots(ks)
  {
    if |ks| == 1 {
      assert ks[1..] == [];
    } else {
      JoinCount(ks[1..]);
      DotsAppend(ks[0] + ".", Join(ks[1..]));
      DotsAppend(ks[0], ".");
    }
  }

  /** Splitting what starts with a dot-free word and a dot gives the word and the rest. */
  lemma {:induction false} SplitWord(word: string, rest: string)
    requires Dots(word) == 0
    ensures Split(word + "." + rest) == [word] + Split(rest)
    ensures Split(word) == [word]
  {
    if word == "" {
      assert word + "." + rest == "." + rest;
      assert ("." + rest)[1..] == rest;
    } else {
      assert (word + "." + rest)[1..] == word[1..] + "." + rest;
      SplitWord(word[1..], rest);
      assert [word[0]] + word[1..] == word;
      assert ([word[1..]] + Split(rest))[1..] == Split(rest);
    }
  }

  /** Splitting undoes joining exactly when no key contains a dot. */
  lemma {:induction false} SplitJoin(ks: seq<string>)
    requires ks != []
    ensures Split(Join(ks)) == ks <==> AllDots(ks) == 0
  {
    SplitCount(Join(ks));
    JoinCount(ks);
    if AllDots(ks) == 0 {
      SplitJoinDotFree(ks);
    }
  }

  lemma {:induction false} SplitJoinDotFree(ks: seq<string>)
    requires ks != [] && AllDots(ks) == 0
    ensures Split(Join(ks)) == ks
  {
    if |ks| == 1 {
      SplitWord(ks[0], "");
    } else {
      SplitWord(ks[0], Join(ks[1..]));
      SplitJoinDotFree(ks[1..]);
    }
  }

  /** The empty key path aside, the path string `detect_pii` builds below `prefix`: an empty prefix
      leaves the dot out. */
  function PathFrom(prefix: string, ks: seq<string>): string
    decreases |ks|
  {
    if ks == [] then prefix
    else PathFrom(if prefix == "" then ks[0] else prefix + "." + ks[0], ks[1..])
  }

  lemma {:induction false} PathFromPrefix(prefix: string, ks: seq<string>)
    requires prefix != "" && ks != []
    ensures PathFrom(prefix, ks) == prefix + "." + Join(ks)
    decreases |ks|
  {
    if |ks| > 1 {
      PathFromPrefix(prefix + "." + ks[0], ks[1..]);
      assert prefix + "." + ks[0] + "." + Join(ks[1..]) == prefix + "." + (ks[0] + "." + Join(ks[1..]));
    }
  }

  /** The key path without the empty keys it starts with, as long as another key follows: an empty prefix
      leaves no trace in a path string. */
  function Spelled(ks: seq<string>): (r: seq<string>)
    requires ks != []
    ensures r != [] && (r[0] == "" ==> |r| == 1)
    decreases |ks|
  {
    if |ks| > 1 && ks[0] == "" then Spelled(ks[1..]) else ks
  }

  /** The path string is the joined path, leading empty keys aside. */
  lemma {:induction false} PathIsJoin(ks: seq<string>)
    requires ks != []
    ensures PathFrom("", ks) == Join(Spelled(ks))
    decreases |ks|
  {
    if |ks| > 1 {
      if ks[0] == "" {
        PathIsJoin(ks[1..]);
      } else {
        PathFromPrefix(ks[0], ks[1..]);
      }
    }
  }

  lemma {:induction false} SpelledDots(ks: seq<string>)
    requires ks != []
    ensures AllDots(Spelled(ks)) == AllDots(ks)
    ensures Spelled(ks) == ks <==> ks[0] != "" || |ks| == 1
    ensures |Spelled(ks)| <= |ks|
    decreases |ks|
  {
    if |ks| > 1 && ks[0] == "" {
      SpelledDots(ks[1..]);
    }
  }

  /** Splitting the path string gives the key path back exactly when no key contains a dot and no empty key
      stands before another key at the start. */
  lemma SplitPath(ks: seq<string>)
    requires ks != []
    ensures Split(PathFrom("", ks)) == Spelled(ks) <==> AllDots(ks) == 0
    ensures Split(PathFrom("", ks)) == ks <==> AllDots(ks) == 0 && (ks[0] != "" || |ks| == 1)
    ensures |Split(PathFrom("", ks))| == |Spelled(ks)| + AllDots(ks)
  {
    PathIsJoin(ks);
    SpelledDots(ks);
    SplitJoin(Spelled(ks));
    SplitCount(Join(Spelled(ks)));
    JoinCount(Spelled(ks));
  }
}
