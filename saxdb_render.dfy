/** Reading back what was written: the scanners recognise exactly the text
    they describe, and a NickServ section written in one fixed layout is
    read back as the accounts it was written from. */
module SaxdbRender {
  import opened Wrappers
  import opened Text
  import opened Saxdb
  import opened SaxdbFacts

  // ---------------------------------------------------------------------
  // Each scanner accepts the text it describes
  // ---------------------------------------------------------------------

  lemma SpaceRunOf(a: string, b: string)
    requires AllSpace(a) && (b == [] || !IsSpace(b[0]))
    ensures SpaceRun(a + b) == |a|
  {
    SpanOf(a, b, IsSpace);
  }

  lemma QuotedAtOf(s: string, rest: string)
    requires '"' !in s
    ensures QuotedAt(Quoted(s) + rest) == Some(s)
  {
    var u := Quoted(s) + rest;
    assert u[1..] == s + ("\"" + rest);
    SpanOf(s, "\"" + rest, NotQuote);
    assert u[1..1 + |s|] == s;
  }

  lemma ListAtOf(s: string, rest: string)
    requires WellFormedValue(RawList(s))
    ensures ListAt(s + rest) == Some(s)
  {
    var u := s + rest;
    var inner := s[1..|s| - 1];
    assert u[1..] == inner + (")" + rest);
    SpanOf(inner, ")" + rest, NotCloseParen);
    assert u[..|s|] == s;
  }

  lemma ValueAtOf(v: Value, rest: string)
    requires WellFormedValue(v)
    ensures ValueAt(ValueText(v) + rest) == Some(v)
  {
    match v
    case Scalar(s) => QuotedAtOf(s, rest);
    case RawList(s) =>
      assert (s + rest)[0] == '(';
      ListAtOf(s, rest);
  }

  lemma TerminatorLengthOf(tail: string, rest: string)
    requires IsTerminator(tail)
    requires rest == [] || !IsSpace(rest[0])
    requires tail == [] ==> rest == [] || rest[0] != ';'
    ensures TerminatorLength(tail + rest) == |tail|
  {
    var x := tail + rest;
    if tail != [] && tail[0] == ';' {
      assert x[1..] == tail[1..] + rest;
      SpaceRunOf(tail[1..], rest);
    } else {
      SpaceRunOf(tail, rest);
    }
  }

  lemma Assoc4(a: string, b: string, c: string, d: string)
    ensures a + b + c + d == a + (b + (c + d))
  {
  }

  /** A greedy `\s*` over white space followed by something else. */
  lemma GapScan(gap: string, y: string)
    requires AllSpace(gap) && y != [] && !IsSpace(y[0])
    ensures SpaceRun(gap + y) == |gap| && (gap + y)[..|gap|] == gap && (gap + y)[|gap|..] == y
  {
    SpaceRunOf(gap, y);
  }

  lemma ValueStart(v: Value, y: string)
    requires WellFormedValue(v)
    ensures ValueText(v) + y != [] && !IsSpace((ValueText(v) + y)[0])
  {
    assert (ValueText(v) + y)[0] == ValueText(v)[0];
  }

  /** One step of `PropertyRestAt`, with the pieces named. */
  lemma PropertyRestAtIs(u: string, value: Value)
    requires SpaceRun(u) > 0 && ValueAt(u[SpaceRun(u)..]) == Some(value)
    ensures var x := u[SpaceRun(u) + |ValueText(value)|..];
            PropertyRestAt(u) == Some((u[..SpaceRun(u)], value, x[..TerminatorLength(x)]))
  {
  }

  /** `PropertyRestAt` put together from what its scanners return. */
  lemma RestAssembled(u: string, gap: string, value: Value, tail: string, y: string)
    requires gap != [] && SpaceRun(u) == |gap| && u[..|gap|] == gap && u[|gap|..] == ValueText(value) + y
    requires ValueAt(ValueText(value) + y) == Some(value)
    requires TerminatorLength(y) == |tail| && y[..|tail|] == tail
    ensures PropertyRestAt(u) == Some((gap, value, tail))
  {
    var w := u[|gap|..];
    assert w[|ValueText(value)|..] == y;
    assert u[|gap| + |ValueText(value)|..] == w[|ValueText(value)|..];
    PropertyRestAtIs(u, value);
  }

  lemma PropertyRestAtOf(gap: string, value: Value, tail: string, rest: string)
    requires gap != [] && AllSpace(gap) && WellFormedValue(value) && IsTerminator(tail)
    requires rest == [] || !IsSpace(rest[0])
    requires tail == [] ==> rest == [] || rest[0] != ';'
    ensures PropertyRestAt(gap + ValueText(value) + tail + rest) == Some((gap, value, tail))
  {
    var vt := ValueText(value);
    var y := tail + rest;
    Assoc4(gap, vt, tail, rest);
    ValueStart(value, y);
    GapScan(gap, vt + y);
    ValueAtOf(value, y);
    TerminatorLengthOf(tail, rest);
    assert y[..|tail|] == tail;
    RestAssembled(gap + (vt + y), gap, value, tail, y);
  }

  /** The property pattern matches exactly one property's text when what
      follows can neither extend the white space nor supply the optional
      semicolon. */
  lemma MatchPropertyOf(m: PropMatch, rest: string)
    requires m.Valid()
    requires rest == [] || !IsSpace(rest[0])
    requires m.tail == [] ==> rest == [] || rest[0] != ';'
    ensures MatchProperty(m.Consumed() + rest) == Some(m)
  {
    var after := m.gap + ValueText(m.value) + m.tail + rest;
    var t := m.Consumed() + rest;
    assert t == Quoted(m.key) + after;
    QuotedAtOf(m.key, after);
    assert t[|m.key| + 2..] == after;
    PropertyRestAtOf(m.gap, m.value, m.tail, rest);
  }

  lemma PropertyMatchesOf(m: PropMatch, rest: string)
    requires m.Valid()
    requires rest == [] || !IsSpace(rest[0])
    requires m.tail == [] ==> rest == [] || rest[0] != ';'
    ensures PropertyMatches(m.Consumed() + rest) == [m] + PropertyMatches(rest)
  {
    MatchPropertyOf(m, rest);
    var t := m.Consumed() + rest;
    assert t[|m.Consumed()|..] == rest;
  }

  // ---------------------------------------------------------------------
  // Properties written in one fixed layout
  // ---------------------------------------------------------------------

  /** A name or key the dump can hold and the scan can skip over: non-empty,
      without quotes and without braces. */
  predicate WritableName(s: string) {
    s != [] && '"' !in s && '{' !in s && '}' !in s
  }

  predicate WritableValue(v: Value) {
    WellFormedValue(v) && '{' !in ValueText(v) && '}' !in ValueText(v)
  }

  predicate WritableProperties(ps: seq<(string, Value)>) {
    forall i :: 0 <= i < |ps| ==> WritableName(ps[i].0) && WritableValue(ps[i].1)
  }

  /** The match a property line produces. */
  function LineMatch(p: (string, Value)): PropMatch {
    PropMatch(p.0, " ", p.1, ";\n")
  }

  /** `"key" value;` on a line of its own, for each property in order. */
  function RenderProperties(ps: seq<(string, Value)>): string {
    if ps == [] then [] else LineMatch(ps[0]).Consumed() + RenderProperties(ps[1..])
  }

  function Lines(ps: seq<(string, Value)>): seq<PropMatch> {
    seq(|ps|, i requires 0 <= i < |ps| => LineMatch(ps[i]))
  }

  lemma {:induction false} RenderPropertiesStart(ps: seq<(string, Value)>)
    ensures ps == [] <==> RenderProperties(ps) == []
    ensures ps != [] ==> RenderProperties(ps)[0] == '"'
  {
    if ps != [] {
      assert LineMatch(ps[0]).Consumed()[0] == '"';
    }
  }

  /** A written property line is a valid match that ends in `;` and a line
      break. */
  lemma LineMatchValid(p: (string, Value))
    requires WritableName(p.0) && WritableValue(p.1)
    ensures LineMatch(p).Valid() && LineMatch(p).tail != []
  {
    assert AllSpace(";\n"[1..]);
  }

  lemma WritableRest(ps: seq<(string, Value)>)
    requires ps != [] && WritableProperties(ps)
    ensures WritableName(ps[0].0) && WritableValue(ps[0].1) && WritableProperties(ps[1..])
  {
    assert forall i :: 0 <= i < |ps| - 1 ==> ps[1..][i] == ps[i + 1];
  }

  lemma LinesAt(ps: seq<(string, Value)>)
    ensures |Lines(ps)| == |ps|
    ensures forall i :: 0 <= i < |ps| ==> Lines(ps)[i].key == ps[i].0 && Lines(ps)[i].value == ps[i].1
  {
  }

  lemma LinesCons(ps: seq<(string, Value)>)
    requires ps != []
    ensures Lines(ps) == [LineMatch(ps[0])] + Lines(ps[1..])
  {
  }

  /** The property lines are read back as one match each, in order. */
  lemma {:induction false} PropertyMatchesRendered(ps: seq<(string, Value)>)
    requires WritableProperties(ps)
    ensures PropertyMatches(RenderProperties(ps)) == Lines(ps)
  {
    if ps != [] {
      var rest := RenderProperties(ps[1..]);
      WritableRest(ps);
      PropertyMatchesRendered(ps[1..]);
      RenderPropertiesStart(ps[1..]);
      LineMatchValid(ps[0]);
      PropertyMatchesOf(LineMatch(ps[0]), rest);
      LinesCons(ps);
    }
  }

  /** `AssignSpec` restated for matches that carry the keys and values of
      `ps`, one for one. */
  lemma {:induction false} AssignPairs(ms: seq<PropMatch>, ps: seq<(string, Value)>, k: string)
    requires |ms| == |ps|
    requires forall i :: 0 <= i < |ps| ==> ms[i].key == ps[i].0 && ms[i].value == ps[i].1
    ensures k in Assign(ms) <==> exists i :: 0 <= i < |ps| && ps[i].0 == k
    ensures forall i :: 0 <= i < |ps| && ps[i].0 == k && (forall j :: i < j < |ps| ==> ps[j].0 != k) ==>
              k in Assign(ms) && Assign(ms)[k] == ps[i].1
  {
    AssignSpec(ms, k);
    if k in Assign(ms) {
      var i :| 0 <= i < |ms| && ms[i].key == k;
      assert ps[i].0 == k;
    }
    if exists i :: 0 <= i < |ps| && ps[i].0 == k {
      var i :| 0 <= i < |ps| && ps[i].0 == k;
      assert ms[i].key == k;
    }
    forall i | 0 <= i < |ps| && ps[i].0 == k && (forall j :: i < j < |ps| ==> ps[j].0 != k)
      ensures k in Assign(ms) && Assign(ms)[k] == ps[i].1
    {
      assert forall j :: i < j < |ms| ==> ms[j].key != k;
    }
  }

  /** Written properties are read back: the keys are exactly the written
      ones, and a key written twice has the value written last. */
  lemma PropertiesRoundTrip(ps: seq<(string, Value)>, k: string)
    requires WritableProperties(ps)
    ensures k in PropertiesOf(RenderProperties(ps)) <==> exists i :: 0 <= i < |ps| && ps[i].0 == k
    ensures forall i :: 0 <= i < |ps| && ps[i].0 == k && (forall j :: i < j < |ps| ==> ps[j].0 != k) ==>
              k in PropertiesOf(RenderProperties(ps)) && PropertiesOf(RenderProperties(ps))[k] == ps[i].1
  {
    PropertyMatchesRendered(ps);
    LinesAt(ps);
    AssignPairs(Lines(ps), ps, k);
  }

  /** A key given twice in one block keeps the second value. */
  lemma DuplicateKeyLastWins(k: string, v1: Value, v2: Value)
    requires WritableName(k) && WritableValue(v1) && WritableValue(v2)
    ensures PropertiesOf(RenderProperties([(k, v1), (k, v2)])) == map[k := v2]
  {
    var ps := [(k, v1), (k, v2)];
    var ms := Lines(ps);
    PropertyMatchesRendered(ps);
    assert PropertiesOf(RenderProperties(ps)) == Assign(ms);
    assert ms[..1] == [LineMatch((k, v1))];
    assert ms[..1][..0] == [];
    assert Assign(ms[..1]) == map[k := v1];
    assert Assign(ms) == Assign(ms[..1])[k := v2];
  }

  // ---------------------------------------------------------------------
  // Entries
  // ---------------------------------------------------------------------

  lemma BlockPieces(lead: string, body: string, rest: string)
    ensures var x := Block(lead, body) + rest;
            x[0] == '{' && x[1..] == (lead + body) + ("};" + rest) && x[1..] == lead + (body + "};" + rest)
  {
    var x := Block(lead, body) + rest;
    assert x == "{" + ((lead + body) + ("};" + rest));
  }

  /** The block of an entry whose group does not start with white space. */
  lemma BlockAtOf(lead: string, body: string, rest: string)
    requires AllSpace(lead) && body != [] && '}' !in body && !IsSpace(body[0])
    ensures BlockAt(Block(lead, body) + rest) == Some((lead, body))
  {
    var x := Block(lead, body) + rest;
    var y := x[1..];
    BlockPieces(lead, body, rest);
    assert forall i :: 0 <= i < |lead| ==> NotCloseBrace(lead[i]);
    SpanOf(lead + body, "};" + rest, NotCloseBrace);
    SpaceRunOf(lead, body + "};" + rest);
    var c := |lead| + |body|;
    assert y[c + 1] == ';';
    assert y[..|lead|] == lead && y[|lead|..c] == body;
  }

  /** The block of an entry that holds only white space: the group gives
      back the last white-space character. */
  lemma BlockAtBlank(ws: string, rest: string)
    requires ws != [] && AllSpace(ws)
    ensures BlockAt(Block(ws, "") + rest) == Some((ws[..|ws| - 1], [ws[|ws| - 1]]))
  {
    var x := Block(ws, "") + rest;
    var y := x[1..];
    BlockPieces(ws, "", rest);
    assert ws + "" == ws;
    assert y == ws + ("};" + rest);
    assert y[..|ws| - 1] == ws[..|ws| - 1];
    assert forall i :: 0 <= i < |ws| ==> NotCloseBrace(ws[i]);
    SpanOf(ws, "};" + rest, NotCloseBrace);
    SpaceRunOf(ws, "};" + rest);
    assert y[|ws| + 1] == ';';
    assert y[|ws| - 1..|ws|] == [ws[|ws| - 1]];
  }

  lemma EntryPieces(name: string, gap: string, block: string, rest: string)
    ensures var t := Quoted(name) + gap + block + rest;
            var u := t[|name| + 2..];
            t == Quoted(name) + (gap + (block + rest)) && u == gap + (block + rest)
            && u[..|gap|] == gap && u[|gap|..] == block + rest
  {
    var t := Quoted(name) + gap + block + rest;
    assert t == Quoted(name) + (gap + (block + rest));
  }

  /** `MatchEntry` put together from what its scanners return. */
  lemma EntryAssembled(t: string, name: string, gap: string, x: string)
    requires QuotedAt(t) == Some(name) && name != []
    requires var u := t[|name| + 2..]; SpaceRun(u) == |gap| && u[..|gap|] == gap && u[|gap|..] == x
    ensures MatchEntry(t) ==
            match BlockAt(x)
            case None => None
            case Some(b) => Some(EntryMatch(name, gap, b.0, b.1))
  {
  }

  /** The entry pattern at a quoted name, white space and a block. */
  lemma MatchEntryAt(name: string, gap: string, block: string, rest: string)
    requires name != [] && '"' !in name && AllSpace(gap) && block != [] && block[0] == '{'
    ensures MatchEntry(Quoted(name) + gap + block + rest) ==
            match BlockAt(block + rest)
            case None => None
            case Some(b) => Some(EntryMatch(name, gap, b.0, b.1))
  {
    EntryPieces(name, gap, block, rest);
    QuotedAtOf(name, gap + (block + rest));
    SpaceRunOf(gap, block + rest);
    EntryAssembled(Quoted(name) + gap + block + rest, name, gap, block + rest);
  }

  /** The entry pattern matches exactly one entry's text when its group does
      not start with white space. */
  lemma MatchEntryOf(m: EntryMatch, rest: string)
    requires m.Valid() && !IsSpace(m.body[0])
    ensures MatchEntry(m.Consumed() + rest) == Some(m)
  {
    MatchEntryAt(m.name, m.gap, Block(m.lead, m.body), rest);
    BlockAtOf(m.lead, m.body, rest);
  }

  /** An entry whose block holds only white space is matched with all but
      its last white-space character before the group. */
  lemma MatchEntryBlank(name: string, gap: string, ws: string, rest: string)
    requires name != [] && '"' !in name && AllSpace(gap) && ws != [] && AllSpace(ws)
    ensures MatchEntry(Quoted(name) + gap + Block(ws, "") + rest) ==
            Some(EntryMatch(name, gap, ws[..|ws| - 1], [ws[|ws| - 1]]))
  {
    MatchEntryAt(name, gap, Block(ws, ""), rest);
    BlockAtBlank(ws, rest);
  }

  // ---------------------------------------------------------------------
  // Entries written in one fixed layout
  // ---------------------------------------------------------------------

  type Entry = (string, seq<(string, Value)>)

  predicate WritableEntries(es: seq<Entry>) {
    forall i :: 0 <= i < |es| ==> WritableName(es[i].0) && WritableProperties(es[i].1)
  }

  /** `"name" {` on a line, then the property lines, then `};` on a line. */
  function EntryText(e: Entry): string {
    Quoted(e.0) + " {\n" + RenderProperties(e.1) + "};\n"
  }

  function RenderEntries(es: seq<Entry>): string {
    if es == [] then [] else EntryText(es[0]) + RenderEntries(es[1..])
  }

  /** The match an entry's text produces; an entry without properties has
      only a line break in its block, which the group takes. */
  function EntryOf(e: Entry): EntryMatch {
    if e.1 == [] then EntryMatch(e.0, " ", "", "\n") else EntryMatch(e.0, " ", "\n", RenderProperties(e.1))
  }

  function EntryLines(es: seq<Entry>): seq<EntryMatch> {
    seq(|es|, i requires 0 <= i < |es| => EntryOf(es[i]))
  }

  lemma {:induction false} RenderPropertiesChars(ps: seq<(string, Value)>)
    requires WritableProperties(ps)
    ensures '{' !in RenderProperties(ps) && '}' !in RenderProperties(ps)
  {
    if ps != [] {
      assert WritableProperties(ps[1..]) by {
        assert forall i :: 0 <= i < |ps| - 1 ==> ps[1..][i] == ps[i + 1];
      }
      RenderPropertiesChars(ps[1..]);
      var line := LineMatch(ps[0]).Consumed();
      assert line == "\"" + ps[0].0 + "\" " + ValueText(ps[0].1) + ";\n";
    }
  }

  lemma EntryTextPieces(e: Entry, rest: string)
    ensures EntryText(e) + rest == EntryOf(e).Consumed() + ("\n" + rest)
    ensures e.1 == [] ==> EntryText(e) + rest == Quoted(e.0) + " " + Block("\n", "") + ("\n" + rest)
  {
    var r := RenderProperties(e.1);
    if e.1 == [] {
      assert r == [];
      assert EntryOf(e).Consumed() == Quoted(e.0) + " " + Block("\n", "");
    }
  }

  /** An entry's text is matched as the entry. */
  lemma MatchEntryRendered(e: Entry, rest: string)
    requires WritableName(e.0) && WritableProperties(e.1)
    ensures MatchEntry(EntryOf(e).Consumed() + ("\n" + rest)) == Some(EntryOf(e))
  {
    var m := EntryOf(e);
    EntryTextPieces(e, rest);
    if e.1 == [] {
      MatchEntryBlank(e.0, " ", "\n", "\n" + rest);
    } else {
      RenderPropertiesStart(e.1);
      RenderPropertiesChars(e.1);
      MatchEntryOf(m, "\n" + rest);
    }
  }

  lemma EntryMatchesStep(m: EntryMatch, rest: string)
    requires MatchEntry(m.Consumed() + rest) == Some(m)
    ensures EntryMatches(m.Consumed() + rest) == [m] + EntryMatches(rest)
  {
    var t := m.Consumed() + rest;
    assert t[|m.Consumed()|..] == rest;
  }

  /** A line break between entries matches nothing. */
  lemma EntryMatchesSkipsBreak(rest: string)
    ensures EntryMatches("\n" + rest) == EntryMatches(rest)
  {
    assert ("\n" + rest)[1..] == rest;
  }

  /** An entry's text is read back as one entry match. */
  lemma EntryMatchesOf(e: Entry, rest: string)
    requires WritableName(e.0) && WritableProperties(e.1)
    ensures EntryMatches(EntryText(e) + rest) == [EntryOf(e)] + EntryMatches(rest)
  {
    EntryTextPieces(e, rest);
    MatchEntryRendered(e, rest);
    EntryMatchesStep(EntryOf(e), "\n" + rest);
    EntryMatchesSkipsBreak(rest);
  }

  /** The entries are read back as one match each, in order. */
  lemma {:induction false} EntryMatchesRendered(es: seq<Entry>)
    requires WritableEntries(es)
    ensures EntryMatches(RenderEntries(es)) == EntryLines(es)
  {
    if es != [] {
      assert WritableEntries(es[1..]) by {
        assert forall i :: 0 <= i < |es| - 1 ==> es[1..][i] == es[i + 1];
      }
      EntryMatchesRendered(es[1..]);
      EntryMatchesOf(es[0], RenderEntries(es[1..]));
      assert EntryLines(es) == [EntryOf(es[0])] + EntryLines(es[1..]);
    }
  }

  // ---------------------------------------------------------------------
  // Braces in the written section
  // ---------------------------------------------------------------------

  /** Starting at depth `d`, no prefix of `s` takes the depth below zero. */
  predicate Above(s: string, d: int) {
    forall k :: 0 <= k <= |s| ==> d + Depth(s[..k]) >= 0
  }

  lemma AboveAppend(x: string, y: string, d: int)
    requires Above(x, d) && Above(y, d + Depth(x))
    ensures Above(x + y, d)
  {
    forall k | 0 <= k <= |x + y|
      ensures d + Depth((x + y)[..k]) >= 0
    {
      if k <= |x| {
        assert (x + y)[..k] == x[..k];
      } else {
        assert (x + y)[..k] == x + y[..k - |x|];
        DepthAppend(x, y[..k - |x|]);
      }
    }
  }

  lemma {:induction false} NoBraceDepth(s: string)
    requires '{' !in s && '}' !in s
    ensures Depth(s) == 0
  {
    if s != [] {
      var init := s[..|s| - 1];
      assert forall c :: c in init ==> c in s;
      NoBraceDepth(init);
      assert s[|s| - 1] in s;
    }
  }

  lemma NoBraceAbove(s: string, d: int)
    requires '{' !in s && '}' !in s && d >= 0
    ensures Depth(s) == 0 && Above(s, d)
  {
    NoBraceDepth(s);
    forall k | 0 <= k <= |s|
      ensures Depth(s[..k]) == 0
    {
      assert forall c :: c in s[..k] ==> c in s;
      NoBraceDepth(s[..k]);
    }
  }

  lemma BraceAbove(c: char, d: int)
    requires (c == '{' && d >= 0) || (c == '}' && d >= 1)
    ensures Depth([c]) == Delta(c) && Above([c], d)
  {
    assert [c][..0] == [];
    assert [c][..1] == [c];
  }

  /** Text with one pair of braces and no other braces is balanced. */
  lemma BlockBalanced(a: string, b: string, c: string)
    requires '{' !in a && '}' !in a && '{' !in b && '}' !in b && '{' !in c && '}' !in c
    ensures Depth(a + "{" + b + "}" + c) == 0 && Above(a + "{" + b + "}" + c, 0)
  {
    NoBraceAbove(a, 0);
    BraceAbove('{', 0);
    NoBraceAbove(b, 1);
    BraceAbove('}', 1);
    NoBraceAbove(c, 0);
    AboveAppend(a, "{", 0);
    DepthAppend(a, "{");
    AboveAppend(a + "{", b, 0);
    DepthAppend(a + "{", b);
    AboveAppend(a + "{" + b, "}", 0);
    DepthAppend(a + "{" + b, "}");
    AboveAppend(a + "{" + b + "}", c, 0);
    DepthAppend(a + "{" + b + "}", c);
  }

  /** Each written entry opens one brace and closes it. */
  lemma EntryBalanced(e: Entry)
    requires WritableName(e.0) && WritableProperties(e.1)
    ensures Depth(EntryText(e)) == 0 && Above(EntryText(e), 0)
  {
    var a := Quoted(e.0) + " ";
    var b := "\n" + RenderProperties(e.1);
    var c := ";\n";
    assert EntryText(e) == a + "{" + b + "}" + c;
    RenderPropertiesChars(e.1);
    assert forall ch :: ch in b ==> ch == '\n' || ch in RenderProperties(e.1);
    assert forall ch :: ch in a ==> ch == '"' || ch == ' ' || ch in e.0;
    BlockBalanced(a, b, c);
  }

  /** The written entries together are balanced. */
  lemma {:induction false} EntriesBalanced(es: seq<Entry>)
    requires WritableEntries(es)
    ensures Depth(RenderEntries(es)) == 0 && Above(RenderEntries(es), 0)
  {
    if es == [] {
      assert RenderEntries(es) == [];
      assert RenderEntries(es)[..0] == [];
    } else {
      assert WritableEntries(es[1..]) by {
        assert forall i :: 0 <= i < |es| - 1 ==> es[1..][i] == es[i + 1];
      }
      EntriesBalanced(es[1..]);
      EntryBalanced(es[0]);
      AboveAppend(EntryText(es[0]), RenderEntries(es[1..]), 0);
      DepthAppend(EntryText(es[0]), RenderEntries(es[1..]));
    }
  }

  // ---------------------------------------------------------------------
  // A whole dump
  // ---------------------------------------------------------------------

  /** A dump whose NickServ section has the body `body`: text before the
      marker, the marker, text before the opening brace, the body, the
      closing brace and whatever follows. */
  function Dump(pre: string, mid: string, body: string, post: string): string {
    pre + SectionMarker + mid + "{" + body + "}" + post
  }

  /** A dump with the NickServ section written from `es`. */
  function Document(pre: string, mid: string, es: seq<Entry>, post: string): string {
    Dump(pre, mid, RenderEntries(es), post)
  }

  lemma MarkerChars()
    ensures '{' !in SectionMarker
  {
  }

  /** The pieces of a section laid out after a marker `m`. */
  lemma LayoutPieces(pre: string, m: string, mid: string, body: string, post: string)
    ensures var doc := pre + m + mid + "{" + body + "}" + post;
            doc == (pre + m) + (mid + "{" + body + "}" + post)
            && doc == pre + (m + mid) + ("{" + body + "}" + post)
            && |pre| + |m| + |mid| < |doc| && doc[|pre| + |m| + |mid| + 1..] == body + "}" + post
  {
    var doc := pre + m + mid + "{" + body + "}" + post;
    assert doc == (pre + m) + (mid + "{" + body + "}" + post);
    assert doc == pre + (m + mid) + ("{" + body + "}" + post);
    assert doc == (pre + m + mid + "{") + (body + "}" + post);
  }

  lemma LayoutMarker(pre: string, m: string, mid: string, body: string, post: string)
    requires forall j :: 0 <= j < |pre| ==> !OccursAt(pre + m, m, j)
    ensures Find(pre + m + mid + "{" + body + "}" + post, m, 0) == Some(|pre|)
  {
    LayoutPieces(pre, m, mid, body, post);
    assert (pre + m)[|pre|..|pre| + |m|] == m;
    FindInPrefix(pre + m, mid + "{" + body + "}" + post, m, |pre|);
  }

  lemma LayoutBrace(pre: string, m: string, mid: string, body: string, post: string)
    requires '{' !in m && '{' !in mid
    ensures Find(pre + m + mid + "{" + body + "}" + post, "{", |pre|) == Some(|pre| + |m| + |mid|)
  {
    LayoutPieces(pre, m, mid, body, post);
    assert forall c :: c in m + mid ==> c in m || c in mid;
    FindCharAfter(pre, m + mid, "{" + body + "}" + post, '{');
  }

  lemma LayoutScan(pre: string, m: string, mid: string, body: string, post: string)
    requires Depth(body) == 0 && Above(body, 0)
    ensures var doc := pre + m + mid + "{" + body + "}" + post;
            var b := |pre| + |m| + |mid|;
            b < |doc| && BlockBody(doc, b) == body
  {
    var doc := pre + m + mid + "{" + body + "}" + post;
    LayoutPieces(pre, m, mid, body, post);
    assert (body + "}" + post)[..|body| + 1] == body + "}";
    SectionScanCloses(doc, |pre| + |m| + |mid|, body);
  }

  /** The three steps of the section search, put together. */
  lemma SectionBodyFound(doc: string, m: string, i: nat, b: nat, body: string)
    requires Find(doc, m, 0) == Some(i) && Find(doc, "{", i) == Some(b)
    requires b < |doc| && BlockBody(doc, b) == body
    ensures SectionBodyAfter(doc, m) == Some(body)
  {
    var r := Find(doc, m, 0);
    assert r.value == i;
    var q := Find(doc, "{", r.value);
    assert q.value == b;
  }

  lemma LayoutSection(pre: string, m: string, mid: string, body: string, post: string)
    requires forall j :: 0 <= j < |pre| ==> !OccursAt(pre + m, m, j)
    requires '{' !in m && '{' !in mid
    requires Depth(body) == 0 && Above(body, 0)
    ensures SectionBodyAfter(pre + m + mid + "{" + body + "}" + post, m) == Some(body)
  {
    var doc := pre + m + mid + "{" + body + "}" + post;
    var b := |pre| + |m| + |mid|;
    LayoutMarker(pre, m, mid, body, post);
    LayoutBrace(pre, m, mid, body, post);
    LayoutScan(pre, m, mid, body, post);
    SectionBodyFound(doc, m, |pre|, b, body);
  }

  /** The section body found in a dump is the text between the first opening
      brace after the marker and its matching closing brace. */
  lemma DumpSection(pre: string, mid: string, body: string, post: string)
    requires forall j :: 0 <= j < |pre| ==> !OccursAt(pre + SectionMarker, SectionMarker, j)
    requires '{' !in mid
    requires Depth(body) == 0 && Above(body, 0)
    ensures SectionBody(Dump(pre, mid, body, post)) == Some(body)
  {
    MarkerChars();
    LayoutSection(pre, SectionMarker, mid, body, post);
  }

  /** The accounts read from a written dump are the fold over the written
      entries. */
  lemma DocumentAccounts(pre: string, mid: string, es: seq<Entry>, post: string)
    requires forall j :: 0 <= j < |pre| ==> !OccursAt(pre + SectionMarker, SectionMarker, j)
    requires '{' !in mid
    requires WritableEntries(es)
    ensures NickServAccounts(Document(pre, mid, es, post)) == Collect(EntryLines(es))
  {
    EntriesBalanced(es);
    DumpSection(pre, mid, RenderEntries(es), post);
    EntryMatchesRendered(es);
  }

  lemma BreakHasNoProperties()
    ensures PropertiesOf("\n") == map[]
  {
    assert MatchProperty("\n") == None;
    assert "\n"[1..] == [];
  }

  /** A written entry is kept exactly when its name is not structural and it
      has properties, and its properties are the ones written. */
  lemma EntryOfKept(e: Entry)
    requires WritableName(e.0) && WritableProperties(e.1)
    ensures PropertiesOf(EntryOf(e).body) == PropertiesOf(RenderProperties(e.1))
    ensures Kept(EntryOf(e)) <==> e.0 !in StructuralNames && e.1 != []
  {
    if e.1 == [] {
      BreakHasNoProperties();
      assert PropertyMatches([]) == [];
    } else {
      PropertiesRoundTrip(e.1, e.1[0].0);
    }
  }

  /** The `Collect` facts restated for matches that correspond, one for one,
      to the entries `es`. */
  lemma {:induction false} CollectPairs(ms: seq<EntryMatch>, es: seq<Entry>, n: string)
    requires |ms| == |es|
    requires forall i :: 0 <= i < |es| ==> ms[i].name == es[i].0
    requires forall i :: 0 <= i < |es| ==> (Kept(ms[i]) <==> es[i].0 !in StructuralNames && es[i].1 != [])
    requires forall i :: 0 <= i < |es| ==> PropertiesOf(ms[i].body) == PropertiesOf(RenderProperties(es[i].1))
    ensures n in Collect(ms) <==>
              n !in StructuralNames && exists i :: 0 <= i < |es| && es[i].0 == n && es[i].1 != []
    ensures forall i :: 0 <= i < |es| && es[i].0 == n && es[i].1 != [] && n !in StructuralNames
                        && (forall j :: i < j < |es| && es[j].0 == n ==> es[j].1 == []) ==>
              n in Collect(ms) && Collect(ms)[n] == PropertiesOf(RenderProperties(es[i].1))
  {
    if n in Collect(ms) {
      CollectKeysFrom(ms, n);
    }
    forall i | 0 <= i < |es| && es[i].0 == n && es[i].1 != [] && n !in StructuralNames
      ensures n in Collect(ms)
    {
      CollectKeysTo(ms, i);
    }
    forall i | 0 <= i < |es| && es[i].0 == n && es[i].1 != [] && n !in StructuralNames
                && (forall j :: i < j < |es| && es[j].0 == n ==> es[j].1 == [])
      ensures n in Collect(ms) && Collect(ms)[n] == PropertiesOf(RenderProperties(es[i].1))
    {
      CollectLastWins(ms, i);
    }
  }

  /** A NickServ section written from `es` is read back as the accounts of
      `es`: the names are those of the entries that are not structural and
      have properties, and a name written twice keeps its last such entry. */
  lemma SectionRoundTrip(pre: string, mid: string, es: seq<Entry>, post: string, n: string)
    requires forall j :: 0 <= j < |pre| ==> !OccursAt(pre + SectionMarker, SectionMarker, j)
    requires '{' !in mid
    requires WritableEntries(es)
    ensures n in NickServAccounts(Document(pre, mid, es, post)) <==>
              n !in StructuralNames && exists i :: 0 <= i < |es| && es[i].0 == n && es[i].1 != []
    ensures forall i :: 0 <= i < |es| && es[i].0 == n && es[i].1 != [] && n !in StructuralNames
                        && (forall j :: i < j < |es| && es[j].0 == n ==> es[j].1 == []) ==>
              n in NickServAccounts(Document(pre, mid, es, post))
              && NickServAccounts(Document(pre, mid, es, post))[n] == PropertiesOf(RenderProperties(es[i].1))
  {
    var ms := EntryLines(es);
    DocumentAccounts(pre, mid, es, post);
    forall i | 0 <= i < |es|
      ensures ms[i].name == es[i].0
      ensures Kept(ms[i]) <==> es[i].0 !in StructuralNames && es[i].1 != []
      ensures PropertiesOf(ms[i].body) == PropertiesOf(RenderProperties(es[i].1))
    {
      EntryOfKept(es[i]);
    }
    CollectPairs(ms, es, n);
  }
}
