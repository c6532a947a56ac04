/** The header part of a DKIM signature: which lines are signed, and in what form. */
module SignedHeaders {
  import opened Collections
  import opened Strings

  // ----- Values -----

  /** indexOf(':') + 1 */
  function AfterColon(line: string): (i: nat)
    ensures i <= |line|
  {
    if ':' !in line then 0 else if line[0] == ':' then 1 else 1 + AfterColon(line[1..])
  }

  /** replace(/\r?\n/g, '') */
  function Unfold(s: string): string {
    if s == "" then ""
    else if s[0] == '\n' || (s[0] == '\r' && |s| > 1 && s[1] == '\n') then Unfold(s[1..])
    else [s[0]] + Unfold(s[1..])
  }

  /** replace(/\s+/g, ' ') */
  function Squeeze(s: string): string {
    if s == "" then ""
    else if !IsSpace(s[0]) then [s[0]] + Squeeze(s[1..])
    else (if |s| > 1 && IsSpace(s[1]) then "" else " ") + Squeeze(s[1..])
  }

  function RelaxedHeaderLine(line: string): string {
    Trim(Squeeze(Unfold(line[AfterColon(line)..])))
  }

  predicate AllBlank(s: string) {
    s == "" || ((s[0] == ' ' || s[0] == '\t') && AllBlank(s[1..]))
  }

  lemma {:induction false} AfterColonOfConcat(s: string, t: string)
    requires ':' in s
    ensures AfterColon(s + t) == AfterColon(s)
  {
    if s[0] != ':' {
      assert (s + t)[1..] == s[1..] + t;
      AfterColonOfConcat(s[1..], t);
    }
  }

  lemma {:induction false} UnfoldConcat(s: string, t: string)
    requires t == "" || t[0] != '\n'
    ensures Unfold(s + t) == Unfold(s) + Unfold(t)
  {
    if s == "" {
      assert s + t == t;
    } else {
      assert (s + t)[1..] == s[1..] + t;
      UnfoldConcat(s[1..], t);
    }
  }

  /** Any two runs of blanks are squeezed alike, whatever stands around them. */
  lemma {:induction false} SqueezeRuns(s: string, x: string, y: string, t: string)
    requires AllBlank(x) && x != "" && AllBlank(y) && y != ""
    ensures Squeeze(s + (x + t)) == Squeeze(s + (y + t))
  {
    if s == "" {
      SqueezeRun(x, t);
      SqueezeRun(y, t);
      assert s + (x + t) == x + t && s + (y + t) == y + t;
    } else {
      var a, b := s + (x + t), s + (y + t);
      assert a[1..] == s[1..] + (x + t) && b[1..] == s[1..] + (y + t);
      SqueezeRuns(s[1..], x, y, t);
      assert |s| > 1 ==> a[1] == s[1] && b[1] == s[1];
      assert |s| == 1 ==> a[1] == x[0] && b[1] == y[0];
    }
  }

  lemma {:induction false} SqueezeRun(x: string, t: string)
    requires AllBlank(x) && x != ""
    ensures Squeeze(x + t) == (if t != "" && IsSpace(t[0]) then "" else " ") + Squeeze(t)
  {
    assert (x + t)[1..] == x[1..] + t;
    if |x| > 1 {
      SqueezeRun(x[1..], t);
    } else {
      assert x[1..] + t == t;
    }
  }

  /** Section 3.4.2 of RFC 6376: folding a header value at any of its blanks, with any blanks after the line end,
      does not change what is signed. */
  lemma FoldingIsIrrelevant(before: string, blanks: string, after: string, indent: string)
    requires ':' in before && AllBlank(blanks) && blanks != "" && AllBlank(indent) && indent != ""
    ensures RelaxedHeaderLine(before + (blanks + after)) == RelaxedHeaderLine(before + ("\r\n" + (indent + after)))
  {
    var n := AfterColon(before);
    var value := before[n..];
    AfterColonOfConcat(before, blanks + after);
    AfterColonOfConcat(before, "\r\n" + (indent + after));
    assert (before + (blanks + after))[n..] == value + (blanks + after);
    assert (before + ("\r\n" + (indent + after)))[n..] == value + ("\r\n" + (indent + after));
    UnfoldConcat(value, "\r\n" + (indent + after));
    UnfoldConcat(value, blanks + after);
    assert Unfold("\r\n" + (indent + after)) == Unfold(indent + after) by {
      assert ("\r\n" + (indent + after))[1..] == "\n" + (indent + after);
      assert ("\n" + (indent + after))[1..] == indent + after;
    }
    UnfoldBlanks(blanks, after);
    UnfoldBlanks(indent, after);
    SqueezeRuns(Unfold(value), blanks, indent, Unfold(after));
  }

  lemma UnfoldOther(s: string)
    requires s != "" && s[0] != '\n' && s[0] != '\r'
    ensures Unfold(s) == [s[0]] + Unfold(s[1..])
  {}

  lemma {:induction false} UnfoldBlanks(blanks: string, after: string)
    requires AllBlank(blanks)
    ensures Unfold(blanks + after) == blanks + Unfold(after)
  {
    if blanks == "" {
      assert blanks + after == after;
    } else {
      UnfoldOther(blanks + after);
      hide Unfold;
      assert (blanks + after)[1..] == blanks[1..] + after;
      UnfoldBlanks(blanks[1..], after);
    }
  }

  // ----- The standard's values -----

  predicate IsWsp(c: char) {
    c == ' ' || c == '\t'
  }

  /** Section 3.4.2 of RFC 6376: line ends are taken out, */
  function UnfoldCrlf(s: string): string
    decreases |s|
  {
    if s == "" then ""
    else if s[0] == '\r' && |s| > 1 && s[1] == '\n' then UnfoldCrlf(s[2..])
    else [s[0]] + UnfoldCrlf(s[1..])
  }

  /** sequences of blanks become one space, */
  function ReduceWsp(s: string): string {
    if s == "" then ""
    else if !IsWsp(s[0]) then [s[0]] + ReduceWsp(s[1..])
    else (if |s| > 1 && IsWsp(s[1]) then "" else " ") + ReduceWsp(s[1..])
  }

  /** and blanks behind the colon and at the end are taken away. */
  function TrimWsp(s: string): string {
    if s == "" then "" else if IsWsp(s[0]) then TrimWsp(s[1..]) else TrimWspEnd(s)
  }

  function TrimWspEnd(s: string): string {
    if s == "" then "" else if IsWsp(s[|s| - 1]) then TrimWspEnd(s[..|s| - 1]) else s
  }

  function StandardValue(line: string): string {
    TrimWsp(ReduceWsp(UnfoldCrlf(line[AfterColon(line)..])))
  }

  /** No whitespace but the two kinds that the standard knows. */
  predicate WspOnly(s: string) {
    forall c :: c in s && IsSpace(c) ==> IsWsp(c)
  }

  lemma {:induction false} UnfoldAgrees(s: string)
    requires WspOnly(UnfoldCrlf(s))
    ensures Unfold(s) == UnfoldCrlf(s)
    decreases |s|
  {
    if s == "" {
    } else if s[0] == '\r' && |s| > 1 && s[1] == '\n' {
      assert s[1..][1..] == s[2..];
      UnfoldAgrees(s[2..]);
    } else {
      assert s[0] in UnfoldCrlf(s);
      assert forall c :: c in UnfoldCrlf(s[1..]) ==> c in UnfoldCrlf(s);
      UnfoldAgrees(s[1..]);
    }
  }

  lemma {:induction false} SqueezeAgrees(s: string)
    requires WspOnly(s)
    ensures Squeeze(s) == ReduceWsp(s) && WspOnly(Squeeze(s))
  {
    if s != "" {
      assert s[0] in s && (|s| > 1 ==> s[1] in s);
      SqueezeAgrees(s[1..]);
    }
  }

  lemma {:induction false} TrimAgrees(s: string)
    requires WspOnly(s)
    ensures Trim(s) == TrimWsp(s)
  {
    if s != "" {
      assert s[0] in s;
      if IsSpace(s[0]) {
        TrimAgrees(s[1..]);
      } else {
        TrimEndAgrees(s);
      }
    }
  }

  lemma {:induction false} TrimEndAgrees(s: string)
    requires WspOnly(s)
    ensures TrimEnd(s) == TrimWspEnd(s)
  {
    if s != "" {
      assert s[|s| - 1] in s;
      if IsSpace(s[|s| - 1]) {
        TrimEndAgrees(s[..|s| - 1]);
      }
    }
  }

  lemma {:induction false} ReduceKeeps(s: string, c: char)
    requires c in s && !IsWsp(c)
    ensures c in ReduceWsp(s)
  {
    if s[0] != c {
      ReduceKeeps(s[1..], c);
    }
  }

  lemma {:induction false} TrimKeeps(s: string, c: char)
    requires c in s && !IsWsp(c)
    ensures c in TrimWsp(s)
  {
    if IsWsp(s[0]) {
      TrimKeeps(s[1..], c);
    } else {
      TrimEndKeeps(s, c);
    }
  }

  lemma {:induction false} TrimEndKeeps(s: string, c: char)
    requires c in s && !IsWsp(c)
    ensures c in TrimWspEnd(s)
  {
    if IsWsp(s[|s| - 1]) {
      assert s == s[..|s| - 1] + [s[|s| - 1]];
      TrimEndKeeps(s[..|s| - 1], c);
    }
  }

  lemma {:induction false} SqueezedSpaces(s: string)
    ensures forall c :: c in Squeeze(s) && IsSpace(c) ==> c == ' '
  {
    if s != "" {
      SqueezedSpaces(s[1..]);
    }
  }

  /** What the code makes of a line is what section 3.4.2 of RFC 6376 asks for if and only if the value, its line
      ends taken out, has no other whitespace than spaces and tabs. A bare LF, or a byte like 0xa0 in the middle of a
      character of UTF-8, is whitespace to the code alone. */
  lemma ValueMeetsStandard(line: string)
    ensures RelaxedHeaderLine(line) == StandardValue(line) <==> WspOnly(UnfoldCrlf(line[AfterColon(line)..]))
  {
    hide Squeeze, ReduceWsp, Trim, TrimWsp, Unfold, UnfoldCrlf, IsSpace;
    var value := line[AfterColon(line)..];
    var unfolded := UnfoldCrlf(value);
    if WspOnly(unfolded) {
      UnfoldAgrees(value);
      SqueezeAgrees(unfolded);
      TrimAgrees(Squeeze(unfolded));
    } else {
      var c :| c in unfolded && IsSpace(c) && !IsWsp(c);
      ReduceKeeps(unfolded, c);
      TrimKeeps(ReduceWsp(unfolded), c);
      SqueezedSpaces(Unfold(value));
      TrimmedIsPart(Squeeze(Unfold(value)));
    }
  }

  /** A value in which they differ. */
  lemma ValueDeparts()
    ensures RelaxedHeaderLine("a:x\U{00a0}") != StandardValue("a:x\U{00a0}")
  {
    var line, value := "a:x\U{00a0}", "x\U{00a0}";
    assert line[1..] == ":x\U{00a0}" && AfterColon(":x\U{00a0}") == 1 && AfterColon(line) == 2 && line[2..] == value;
    assert value[1..] == "\U{00a0}" && UnfoldCrlf("\U{00a0}") == "\U{00a0}";
    assert '\U{00a0}' in UnfoldCrlf(value);
    ValueMeetsStandard(line);
  }

  // ----- Lines -----

  datatype Line = Line(key: string, line: string)

  /** The field names asked for, in the order of their first mention. */
  function Included(names: seq<string>): seq<string> {
    if names == [] then
      []
    else
      var init := Included(names[..|names| - 1]);
      if names[|names| - 1] in init then init else init + [names[|names| - 1]]
  }

  lemma {:induction false} IncludedIs(names: seq<string>)
    ensures forall n :: n in Included(names) <==> n in names
    ensures forall i, j :: 0 <= i < j < |Included(names)| ==> Included(names)[i] != Included(names)[j]
  {
    if names != [] {
      IncludedIs(names[..|names| - 1]);
      assert names == names[..|names| - 1] + [names[|names| - 1]];
    }
  }

  /** Of two names, the one that is mentioned first comes first. */
  ghost predicate InOrderOfMention(list: seq<string>, names: seq<string>) {
    forall i, j :: 0 <= i < j < |list| ==> MentionedFirst(list[i], list[j], names)
  }

  ghost predicate MentionedFirst(a: string, b: string, names: seq<string>) {
    exists k :: 0 <= k < |names| && names[k] == a && b !in names[..k]
  }

  lemma {:induction false} IncludedInOrder(names: seq<string>)
    ensures InOrderOfMention(Included(names), names)
  {
    if names != [] {
      var init, last := names[..|names| - 1], names[|names| - 1];
      IncludedInOrder(init);
      IncludedIs(init);
      forall i, j | 0 <= i < j < |Included(names)|
        ensures MentionedFirst(Included(names)[i], Included(names)[j], names)
      {
        var a, b := Included(names)[i], Included(names)[j];
        if j < |Included(init)| {
          assert MentionedFirst(a, b, init);
          var k :| 0 <= k < |init| && init[k] == a && b !in init[..k];
          assert names[k] == a && names[..k] == init[..k];
        } else {
          assert a in init && b !in init;
          var k :| 0 <= k < |init| && init[k] == a;
          assert names[k] == a && names[..k] == init[..k] && forall c :: c in init[..k] ==> c in init;
        }
      }
    }
  }

  lemma {:induction false} SelectedInOrder(included: seq<string>, lines: seq<Line>, names: seq<string>)
    requires InOrderOfMention(included, names)
    ensures InOrderOfMention(Selected(included, lines), names)
    ensures forall n :: n in Selected(included, lines) ==> n in included
  {
    hide HasField, MentionedFirst;
    if included != [] {
      var rest := included[1..];
      SelectedInOrder(rest, lines, names);
      forall j | 0 <= j < |Selected(rest, lines)|
        ensures MentionedFirst(included[0], Selected(rest, lines)[j], names)
      {
        assert Selected(rest, lines)[j] in Selected(rest, lines);
        var k :| 0 <= k < |rest| && rest[k] == Selected(rest, lines)[j];
        assert included[k + 1] == rest[k];
      }
    }
  }

  /** The bottom-most line of a field. */
  predicate IsLast(lines: seq<Line>, key: string, i: int) {
    0 <= i < |lines| && lines[i].key == key && forall j :: i < j < |lines| ==> lines[j].key != key
  }

  predicate HasField(lines: seq<Line>, key: string) {
    exists i :: 0 <= i < |lines| && lines[i].key == key
  }

  function Selected(included: seq<string>, lines: seq<Line>): seq<string> {
    if included == [] then
      []
    else
      (if HasField(lines, included[0]) then [included[0]] else []) + Selected(included[1..], lines)
  }

  lemma {:induction false} SelectedIs(included: seq<string>, lines: seq<Line>)
    requires NoRepeats(included)
    ensures NoRepeats(Selected(included, lines))
    ensures forall n :: n in Selected(included, lines) <==> n in included && HasField(lines, n)
  {
    if included != [] {
      var rest := included[1..];
      assert NoRepeats(rest) && included[0] !in rest;
      SelectedIs(rest, lines);
    }
  }

  /** Filling the set of names, which keeps them in the order in which they were added. */
  method Include(names: seq<string>) returns (included: seq<string>)
    ensures included == Included(names)
  {
    included := [];
    for i := 0 to |names|
      invariant included == Included(names[..i])
    {
      assert names[..i + 1][..i] == names[..i];
      if names[i] !in included {
        included := included + [names[i]];
      }
    }
    assert names[..|names|] == names;
  }

  /** The canonical value of the bottom-most line of each field of interest. */
  method TakeLastLines(lines: seq<Line>, included: seq<string>) returns (fields: map<string, string>)
    ensures forall n :: n in fields <==> n in included && HasField(lines, n)
    ensures forall n, i :: n in fields && IsLast(lines, n, i) ==> fields[n] == RelaxedHeaderLine(lines[i].line)
    ensures forall n :: n in fields ==> exists i :: IsLast(lines, n, i)
  {
    fields := map[];
    ghost var at: map<string, int> := map[];
    var i := |lines|;
    while i > 0
      invariant 0 <= i <= |lines| && at.Keys == fields.Keys
      invariant forall n :: n in fields ==> n in included && IsLast(lines, n, at[n])
                                            && fields[n] == RelaxedHeaderLine(lines[at[n]].line)
      invariant forall j :: i <= j < |lines| && lines[j].key in included ==> lines[j].key in fields
    {
      i := i - 1;
      var line := lines[i];
      if line.key in included && line.key !in fields {
        assert forall j :: i < j < |lines| ==> lines[j].key != line.key;
        fields := fields[line.key := RelaxedHeaderLine(line.line)];
        at := at[line.key := i];
      }
    }
  }

  /** The names that have a value, with it. */
  method SelectFields(included: seq<string>, fields: map<string, string>, ghost lines: seq<Line>)
    returns (h: seq<string>, signed: seq<string>)
    requires forall n :: n in included ==> (n in fields <==> HasField(lines, n))
    ensures |h| == |signed| && h == Selected(included, lines)
    ensures forall k :: 0 <= k < |h| ==> h[k] in fields && signed[k] == fields[h[k]]
  {
    h, signed := [], [];
    for k := 0 to |included|
      invariant |h| == |signed| && h + Selected(included[k..], lines) == Selected(included, lines)
      invariant forall j :: 0 <= j < |h| ==> h[j] in fields && signed[j] == fields[h[j]]
    {
      SelectedStep(included, lines, k, h);
      hide Selected, HasField;
      if included[k] in fields {
        h := h + [included[k]];
        signed := signed + [fields[included[k]]];
      }
    }
    assert h + [] == h;
  }

  lemma SelectedStep(included: seq<string>, lines: seq<Line>, k: nat, h: seq<string>)
    requires k < |included|
    ensures h + Selected(included[k..], lines)
            == (if HasField(lines, included[k]) then h + [included[k]] else h) + Selected(included[k + 1..], lines)
  {
    hide HasField;
    assert included[k..][1..] == included[k + 1..];
    var rest := Selected(included[k + 1..], lines);
    assert h + ([included[k]] + rest) == h + [included[k]] + rest;
    assert [] + rest == rest;
  }

  /** The names to go into the signature's h= list, and the canonical values signed with them: no name twice, in the
      order asked for, each with the bottom-most line of its field (section 5.4.2 of RFC 6376). */
  method SelectLines(lines: seq<Line>, names: seq<string>) returns (h: seq<string>, signed: seq<string>)
    ensures |h| == |signed| && h == Selected(Included(names), lines) && NoRepeats(h) && InOrderOfMention(h, names)
    ensures forall n :: n in h <==> n in names && HasField(lines, n)
    ensures forall k, i :: 0 <= k < |h| && IsLast(lines, h[k], i) ==> signed[k] == RelaxedHeaderLine(lines[i].line)
    ensures forall n :: n in h ==> exists i :: IsLast(lines, n, i)
  {
    var included := Include(names);
    IncludedIs(names);
    SelectedIs(included, lines);
    IncludedInOrder(names);
    SelectedInOrder(included, lines, names);
    var fields := TakeLastLines(lines, included);
    hide Selected, Included, IsLast, HasField, RelaxedHeaderLine, InOrderOfMention;
    h, signed := SelectFields(included, fields, lines);
  }

  // ----- Lists in strings -----

  /** split(':') */
  function SplitNames(s: string): (names: seq<string>)
    ensures names != [] && forall n :: n in names ==> ':' !in n
  {
    if s == "" then [""]
    else
      var rest := SplitNames(s[1..]);
      if s[0] == ':' then [""] + rest
      else
        assert rest[0] in rest;
        [[s[0]] + rest[0]] + rest[1..]
  }

  function Trimmed(names: seq<string>): seq<string> {
    if names == [] then [] else [Trim(names[0])] + Trimmed(names[1..])
  }

  /** The names that a list stands for. */
  function NamesIn(list: string): seq<string> {
    Trimmed(SplitNames(list))
  }

  lemma {:induction false} TrimmedHaveNoColon(names: seq<string>)
    requires forall n :: n in names ==> ':' !in n
    ensures forall n :: n in Trimmed(names) ==> ':' !in n
  {
    if names != [] {
      assert names[0] in names;
      TrimmedIsPart(names[0]);
      TrimmedHaveNoColon(names[1..]);
    }
  }

  function Join(parts: seq<string>, separator: string): string {
    if parts == [] then "" else if |parts| == 1 then parts[0] else parts[0] + separator + Join(parts[1..], separator)
  }

  lemma {:induction false} SplitConcat(name: string, rest: string)
    requires ':' !in name
    ensures SplitNames(name) == [name]
    ensures SplitNames(name + ":" + rest) == [name] + SplitNames(rest)
  {
    if name == "" {
      assert (name + ":" + rest)[1..] == rest;
    } else {
      assert (name + ":" + rest)[1..] == name[1..] + ":" + rest;
      SplitConcat(name[1..], rest);
      assert [name[0]] + name[1..] == name && name[0] in name;
      assert [name] + [] == [name] && ([name[1..]] + SplitNames(rest))[1..] == SplitNames(rest);
    }
  }

  /** A list of names can be read back. */
  lemma {:induction false} SplitJoined(names: seq<string>)
    requires names != [] && forall n :: n in names ==> ':' !in n
    ensures SplitNames(Join(names, ":")) == names
  {
    assert names[0] in names;
    if |names| == 1 {
      SplitConcat(names[0], "");
    } else {
      SplitConcat(names[0], Join(names[1..], ":"));
      SplitJoined(names[1..]);
    }
  }

  /** Each name with its value as a line of its own. */
  function Block(h: seq<string>, signed: seq<string>): string
    requires |h| == |signed|
  {
    if h == [] then "" else h[0] + ":" + signed[0] + "\r\n" + Block(h[1..], signed[1..])
  }

  lemma {:induction false} BlockIs(h: seq<string>, signed: seq<string>)
    requires |h| == |signed| && h != []
    ensures Join(FieldLines(h, signed), "\r\n") + "\r\n" == Block(h, signed)
  {
    var list := FieldLines(h, signed);
    var first := h[0] + ":" + signed[0];
    assert list[1..] == FieldLines(h[1..], signed[1..]);
    if |h| == 1 {
      assert Block(h[1..], signed[1..]) == "";
    } else {
      BlockIs(h[1..], signed[1..]);
      assert first + "\r\n" + Join(list[1..], "\r\n") + "\r\n" == first + "\r\n" + (Join(list[1..], "\r\n") + "\r\n");
    }
  }

  function FieldLines(h: seq<string>, signed: seq<string>): seq<string>
    requires |h| == |signed|
  {
    seq(|h|, k requires 0 <= k < |h| => h[k] + ":" + signed[k])
  }

  /** The header block that is signed has a line for each field selected, ended by CRLF, and the list for the signature
      reads back as their names; a block without any line is a CRLF. `lower` is `toLowerCase`, whatever letters it knows
      of. */
  method RelaxedHeaders(lines: seq<Line>, fieldNames: string, lower: string -> string)
    returns (headers: string, list: string, h: seq<string>, signed: seq<string>)
    ensures |h| == |signed| && headers == if h == [] then "\r\n" else Block(h, signed)
    ensures if h == [] then list == "" else SplitNames(list) == h
    ensures h == Selected(Included(NamesIn(lower(fieldNames))), lines) && NoRepeats(h)
    ensures InOrderOfMention(h, NamesIn(lower(fieldNames)))
    ensures forall n :: n in h <==> n in NamesIn(lower(fieldNames)) && HasField(lines, n)
    ensures forall k, i :: 0 <= k < |h| && IsLast(lines, h[k], i) ==> signed[k] == RelaxedHeaderLine(lines[i].line)
    ensures forall n :: n in h ==> exists i :: IsLast(lines, n, i)
  {
    hide Selected, Included, IsLast, HasField, RelaxedHeaderLine, NoRepeats, Trimmed, InOrderOfMention;
    TrimmedHaveNoColon(SplitNames(lower(fieldNames)));
    var fields, values := SelectLines(lines, NamesIn(lower(fieldNames)));
    headers, list := Join(FieldLines(fields, values), "\r\n") + "\r\n", Join(fields, ":");
    h, signed := fields, values;
    if h != [] {
      BlockIs(h, signed);
      SplitJoined(h);
    } else {
      assert FieldLines(fields, values) == [];
    }
  }
}
