/** The string methods of JavaScript that the sources use. */
module Strings {

  /** What `\s` and `trim` take for whitespace. */
  predicate IsSpace(c: char) {
    || c in {' ', '\t', '\n', '\r', '\U{000b}', '\U{000c}', '\U{00a0}', '\U{1680}', '\U{2028}', '\U{2029}', '\U{202f}',
             '\U{205f}', '\U{3000}', '\U{feff}'}
    || '\U{2000}' <= c <= '\U{200a}'
  }

  function Trim(s: string): string {
    if s == "" then "" else if IsSpace(s[0]) then Trim(s[1..]) else TrimEnd(s)
  }

  function TrimEnd(s: string): string {
    if s == "" then "" else if IsSpace(s[|s| - 1]) then TrimEnd(s[..|s| - 1]) else s
  }

  lemma {:induction false} TrimmedIsPart(s: string)
    ensures forall c :: c in Trim(s) ==> c in s
  {
    if s != "" {
      TrimmedIsPart(s[1..]);
      TrimmedEndIsPart(s);
    }
  }

  lemma {:induction false} TrimmedEndIsPart(s: string)
    ensures forall c :: c in TrimEnd(s) ==> c in s
  {
    if s != "" {
      TrimmedEndIsPart(s[..|s| - 1]);
    }
  }

  /** toLowerCase, of the letters of ASCII. */
  function LowerChar(c: char): char {
    if 'A' <= c <= 'Z' then c + ' ' else c
  }

  lemma LettersOfAscii(c: char)
    ensures LowerChar(c) as int == if 65 <= c as int <= 90 then c as int + 32 else c as int
  {}

  function Lower(s: string): string {
    if s == "" then "" else [LowerChar(s[0])] + Lower(s[1..])
  }

  lemma {:induction false} LowerAt(s: string)
    ensures |Lower(s)| == |s| && forall i :: 0 <= i < |s| ==> Lower(s)[i] == LowerChar(s[i])
  {
    if s != "" {
      LowerAt(s[1..]);
    }
  }

  lemma {:induction false} LowerFixed(s: string)
    requires forall c :: c in s ==> LowerChar(c) == c
    ensures Lower(s) == s
  {
    if s != "" {
      assert s[0] in s;
      LowerFixed(s[1..]);
    }
  }

  /** toLowerCase().trim() */
  function Normal(name: string): string {
    Trim(Lower(name))
  }

  predicate Bare(s: string) {
    s != "" ==> !IsSpace(s[0]) && !IsSpace(s[|s| - 1])
  }

  lemma {:induction false} TrimEndIsBare(s: string)
    requires s != "" ==> !IsSpace(s[0])
    ensures Bare(TrimEnd(s)) && (TrimEnd(s) != "" ==> TrimEnd(s)[0] == s[0])
  {
    if s != "" && IsSpace(s[|s| - 1]) {
      TrimEndIsBare(s[..|s| - 1]);
    }
  }

  lemma {:induction false} TrimIsBare(s: string)
    ensures Bare(Trim(s))
  {
    if s != "" {
      if IsSpace(s[0]) {
        TrimIsBare(s[1..]);
      } else {
        TrimEndIsBare(s);
      }
    }
  }

  lemma BareIsTrimmed(s: string)
    requires Bare(s)
    ensures Trim(s) == s
  {}

  /** Normal forms are normal. */
  lemma NormalIsNormal(name: string)
    ensures Normal(Normal(name)) == Normal(name)
  {
    var low, form := Lower(name), Normal(name);
    LowerAt(name);
    TrimmedIsPart(low);
    forall c | c in form
      ensures LowerChar(c) == c
    {
      assert c in low;
    }
    LowerFixed(form);
    TrimIsBare(low);
    BareIsTrimmed(form);
  }
}
