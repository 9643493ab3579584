/** Blanks around a text, as Python's `strip` and `rstrip` see them.
    Characters are Latin-1: among them the blanks are the space, the controls from tab to carriage
    return and from file to unit separator, the next-line control and the no-break space.
    Shared by the linter's verdict and the HTTP parser. */
module Blanks {

  predicate IsSpace(c: char) {
    c == ' ' || '\t' <= c <= '\r' || '\U{1c}' <= c <= '\U{1f}' || c == '\U{85}' || c == '\U{a0}'
  }

  function StripStart(s: string): string {
    if s != "" && IsSpace(s[0]) then StripStart(s[1..]) else s
  }

  function StripEnd(s: string): string {
    if s != "" && IsSpace(s[|s| - 1]) then StripEnd(s[..|s| - 1]) else s
  }

  function Strip(s: string): string { StripEnd(StripStart(s)) }

  lemma {:induction false} StripEndMeaning(s: string) returns (gap: string)
    ensures s == StripEnd(s) + gap && (forall c | c in gap :: IsSpace(c))
    ensures StripEnd(s) == "" || !IsSpace(StripEnd(s)[|StripEnd(s)| - 1])
  {
    if s != "" && IsSpace(s[|s| - 1]) {
      gap := StripEndMeaning(s[..|s| - 1]);
      gap := gap + [s[|s| - 1]];
    } else {
      gap := "";
    }
  }

  lemma {:induction false} StripStartMeaning(s: string) returns (gap: string)
    ensures s == gap + StripStart(s) && (forall c | c in gap :: IsSpace(c))
    ensures StripStart(s) == "" || !IsSpace(StripStart(s)[0])
  {
    if s != "" && IsSpace(s[0]) {
      gap := StripStartMeaning(s[1..]);
      gap := [s[0]] + gap;
    } else {
      gap := "";
    }
  }
}
