/** Reading back a NickServ section in any layout the two patterns accept:
    any white space around names, values and braces, any terminator after a
    value, one-line blocks as well as one property per line, any text
    without quotes and braces between entries, and an entry whose block ends
    with a nested sub-record. */
module SaxdbLayout {
  import opened Wrappers
  import opened Text
  import opened Saxdb
  import opened SaxdbFacts
  import opened SaxdbRender

  // ---------------------------------------------------------------------
  // Properties in any layout
  // ---------------------------------------------------------------------

  /** A property match whose text holds no brace. */
  predicate WritableMatch(m: PropMatch) {
    m.Valid() && '{' !in m.Consumed() && '}' !in m.Consumed()
  }

  predicate WritableMatches(ms: seq<PropMatch>) {
    forall i :: 0 <= i < |ms| ==> WritableMatch(ms[i])
  }

  /** The text of the property matches `ms`, one after the other. */
  function PropsText(ms: seq<PropMatch>): string {
    if ms == [] then [] else ms[0].Consumed() + PropsText(ms[1..])
  }

  lemma {:induction false} PropsTextStart(ms: seq<PropMatch>)
    ensures ms == [] <==> PropsText(ms) == []
    ensures ms != [] ==> PropsText(ms)[0] == '"'
  {
    if ms != [] {
      assert ms[0].Consumed()[0] == '"';
    }
  }

  lemma WritableMatchesRest(ms: seq<PropMatch>)
    requires ms != [] && WritableMatches(ms)
    ensures WritableMatch(ms[0]) && WritableMatches(ms[1..])
  {
    assert forall i :: 0 <= i < |ms| - 1 ==> ms[1..][i] == ms[i + 1];
  }

  /** Property texts put side by side are read back as exactly those
      matches: each one's terminator stops at the quote that opens the
      next. */
  lemma {:induction false} PropsTextMatches(ms: seq<PropMatch>)
    requires WritableMatches(ms)
    ensures PropertyMatches(PropsText(ms)) == ms
  {
    if ms != [] {
      WritableMatchesRest(ms);
      PropsTextMatches(ms[1..]);
      PropsTextStart(ms[1..]);
      PropertyMatchesOf(ms[0], PropsText(ms[1..]));
      assert ms == [ms[0]] + ms[1..];
    }
  }

  lemma {:induction false} PropsTextChars(ms: seq<PropMatch>)
    requires WritableMatches(ms)
    ensures '{' !in PropsText(ms) && '}' !in PropsText(ms)
  {
    if ms != [] {
      WritableMatchesRest(ms);
      PropsTextChars(ms[1..]);
      var t := PropsText(ms);
      assert t == ms[0].Consumed() + PropsText(ms[1..]);
      assert forall c :: c in t ==> c in ms[0].Consumed() || c in PropsText(ms[1..]);
    }
  }

  // ---------------------------------------------------------------------
  // Entries in any layout
  // ---------------------------------------------------------------------

  /** One entry of a section: the text before it (`sep`), its name, the
      white space before `{`, the white space after it, and its
      properties; the block closes with `};` right after the last
      property's terminator. */
  datatype Layout = Layout(sep: string, name: string, gap: string, lead: string, props: seq<PropMatch>) {
    function Match(): EntryMatch {
      EntryMatch(name, gap, lead, PropsText(props))
    }

    function Text(): string {
      sep + Match().Consumed()
    }

    /** The text before the opening brace. */
    function Head(): string {
      sep + Quoted(name) + gap
    }

    /** The text between the braces, less the closing `;` of the block. */
    function Inner(): string {
      lead + PropsText(props)
    }

    /** The pieces hold no brace and `sep` no quote. */
    predicate Framed() {
      '"' !in sep && '{' !in sep && '}' !in sep && WritableName(name) && AllSpace(gap) && AllSpace(lead)
      && WritableMatches(props)
    }

    /** An entry with at least one property. */
    predicate Writable() {
      Framed() && props != []
    }
  }

  predicate WritableLayouts(ls: seq<Layout>) {
    forall i :: 0 <= i < |ls| ==> ls[i].Writable()
  }

  function SectionText(ls: seq<Layout>): string {
    if ls == [] then [] else ls[0].Text() + SectionText(ls[1..])
  }

  function Matches(ls: seq<Layout>): seq<EntryMatch> {
    seq(|ls|, i requires 0 <= i < |ls| => ls[i].Match())
  }

  lemma WritableLayoutsRest(ls: seq<Layout>)
    requires ls != [] && WritableLayouts(ls)
    ensures ls[0].Writable() && WritableLayouts(ls[1..])
  {
    assert forall i :: 0 <= i < |ls| - 1 ==> ls[1..][i] == ls[i + 1];
  }

  /** Text without a quote holds no entry match. */
  lemma {:induction false} SkipUnquoted(sep: string, rest: string)
    requires '"' !in sep
    ensures EntryMatches(sep + rest) == EntryMatches(rest)
  {
    if sep == [] {
      assert sep + rest == rest;
    } else {
      var t := sep + rest;
      assert t[0] == sep[0];
      assert QuotedAt(t) == None;
      assert t[1..] == sep[1..] + rest;
      assert forall c :: c in sep[1..] ==> c in sep;
      SkipUnquoted(sep[1..], rest);
    }
  }

  /** The white space of a framed entry holds no brace and no quote. */
  lemma SpaceNoBrace(s: string)
    requires AllSpace(s)
    ensures '{' !in s && '}' !in s && '"' !in s
  {
    assert forall c :: c in s ==> IsSpace(c);
  }

  lemma MatchValid(l: Layout)
    requires l.Writable()
    ensures l.Match().Valid() && !IsSpace(l.Match().body[0])
  {
    PropsTextStart(l.props);
    PropsTextChars(l.props);
  }

  /** An entry's text is read back as that one entry. */
  lemma LayoutMatched(l: Layout, rest: string)
    requires l.Writable()
    ensures EntryMatches(l.Text() + rest) == [l.Match()] + EntryMatches(rest)
  {
    var m := l.Match();
    MatchValid(l);
    MatchEntryOf(m, rest);
    EntryMatchesStep(m, rest);
    TextSplit(l.sep, m.Consumed(), rest);
    SkipUnquoted(l.sep, m.Consumed() + rest);
  }

  lemma TextSplit(a: string, b: string, c: string)
    ensures a + b + c == a + (b + c)
  {
  }

  lemma MatchesCons(ls: seq<Layout>)
    requires ls != []
    ensures Matches(ls) == [ls[0].Match()] + Matches(ls[1..])
  {
  }

  /** The entries of a section are read back one match each, in order. */
  lemma {:induction false} SectionMatched(ls: seq<Layout>, end: string)
    requires WritableLayouts(ls) && '"' !in end
    ensures EntryMatches(SectionText(ls) + end) == Matches(ls)
  {
    if ls == [] {
      SkipUnquoted(end, []);
      assert SectionText(ls) + end == end + [];
    } else {
      WritableLayoutsRest(ls);
      SectionMatched(ls[1..], end);
      TextSplit(ls[0].Text(), SectionText(ls[1..]), end);
      LayoutMatched(ls[0], SectionText(ls[1..]) + end);
      MatchesCons(ls);
    }
  }

  /** The properties read from an entry's group are its own, and the entry
      becomes an account exactly when its name is not structural. */
  lemma LayoutKept(l: Layout)
    requires l.Writable()
    ensures PropertiesOf(l.Match().body) == Assign(l.props)
    ensures Kept(l.Match()) <==> l.name !in StructuralNames
  {
    PropsTextMatches(l.props);
    AssignSpec(l.props, l.props[0].key);
  }

  // ---------------------------------------------------------------------
  // Braces
  // ---------------------------------------------------------------------

  lemma FrameChars(l: Layout)
    requires l.Framed()
    ensures '{' !in l.Head() && '}' !in l.Head() && '{' !in l.Inner() && '}' !in l.Inner()
  {
    SpaceNoBrace(l.gap);
    SpaceNoBrace(l.lead);
    PropsTextChars(l.props);
    var a := l.sep + Quoted(l.name) + l.gap;
    var b := l.lead + PropsText(l.props);
    assert forall c :: c in a ==> c in l.sep || c == '"' || c in l.name || c in l.gap;
    assert forall c :: c in b ==> c in l.lead || c in PropsText(l.props);
  }

  /** An entry's text, regrouped around its braces. */
  lemma EntryRegroup(sep: string, q: string, g: string, lead: string, p: string)
    ensures sep + (q + g + Block(lead, p)) == (sep + q + g) + "{" + (lead + p) + "}" + ";"
  {
  }

  lemma LayoutBalanced(l: Layout)
    requires l.Framed()
    ensures Depth(l.Text()) == 0 && Above(l.Text(), 0)
  {
    FrameChars(l);
    EntryRegroup(l.sep, Quoted(l.name), l.gap, l.lead, PropsText(l.props));
    BlockBalanced(l.Head(), l.Inner(), ";");
  }

  lemma {:induction false} SectionBalanced(ls: seq<Layout>, end: string)
    requires WritableLayouts(ls) && '{' !in end && '}' !in end
    ensures Depth(SectionText(ls) + end) == 0 && Above(SectionText(ls) + end, 0)
  {
    if ls == [] {
      NoBraceAbove(end, 0);
      assert SectionText(ls) + end == end;
    } else {
      WritableLayoutsRest(ls);
      SectionBalanced(ls[1..], end);
      LayoutBalanced(ls[0]);
      var rest := SectionText(ls[1..]) + end;
      assert SectionText(ls) + end == ls[0].Text() + rest;
      AboveAppend(ls[0].Text(), rest, 0);
      DepthAppend(ls[0].Text(), rest);
    }
  }

  // ---------------------------------------------------------------------
  // A whole dump in any layout
  // ---------------------------------------------------------------------

  /** A dump whose section body is balanced is read as the fold over the
      body's entry matches. */
  lemma BodyAccounts(pre: string, mid: string, body: string, post: string, ms: seq<EntryMatch>)
    requires forall j :: 0 <= j < |pre| ==> !OccursAt(pre + SectionMarker, SectionMarker, j)
    requires '{' !in mid
    requires Depth(body) == 0 && Above(body, 0) && EntryMatches(body) == ms
    ensures NickServAccounts(Dump(pre, mid, body, post)) == Collect(ms)
  {
    DumpSection(pre, mid, body, post);
  }

  lemma LayoutAccounts(pre: string, mid: string, ls: seq<Layout>, end: string, post: string)
    requires forall j :: 0 <= j < |pre| ==> !OccursAt(pre + SectionMarker, SectionMarker, j)
    requires '{' !in mid
    requires WritableLayouts(ls) && '"' !in end && '{' !in end && '}' !in end
    ensures NickServAccounts(Dump(pre, mid, SectionText(ls) + end, post)) == Collect(Matches(ls))
  {
    SectionBalanced(ls, end);
    SectionMatched(ls, end);
    BodyAccounts(pre, mid, SectionText(ls) + end, post, Matches(ls));
  }

  /** The `Collect` facts for the matches of entries that each have a
      property. */
  lemma {:induction false} CollectLayouts(ms: seq<EntryMatch>, ls: seq<Layout>, n: string)
    requires |ms| == |ls|
    requires forall i :: 0 <= i < |ls| ==> ms[i].name == ls[i].name
    requires forall i :: 0 <= i < |ls| ==> (Kept(ms[i]) <==> ls[i].name !in StructuralNames)
    requires forall i :: 0 <= i < |ls| ==> PropertiesOf(ms[i].body) == Assign(ls[i].props)
    ensures n in Collect(ms) <==> n !in StructuralNames && exists i :: 0 <= i < |ls| && ls[i].name == n
    ensures forall i :: 0 <= i < |ls| && ls[i].name == n && n !in StructuralNames
                        && (forall j :: i < j < |ls| ==> ls[j].name != n) ==>
              n in Collect(ms) && Collect(ms)[n] == Assign(ls[i].props)
  {
    if n in Collect(ms) {
      CollectKeysFrom(ms, n);
    }
    forall i | 0 <= i < |ls| && ls[i].name == n && n !in StructuralNames
      ensures n in Collect(ms)
    {
      CollectKeysTo(ms, i);
    }
    forall i | 0 <= i < |ls| && ls[i].name == n && n !in StructuralNames
                && (forall j :: i < j < |ls| ==> ls[j].name != n)
      ensures n in Collect(ms) && Collect(ms)[n] == Assign(ls[i].props)
    {
      CollectLastWins(ms, i);
    }
  }

  /** A NickServ section in any layout is read back as its accounts: the
      names are those of its entries that are not structural, and a name
      given twice keeps its last entry's properties. */
  lemma LayoutRoundTrip(pre: string, mid: string, ls: seq<Layout>, end: string, post: string, n: string)
    requires forall j :: 0 <= j < |pre| ==> !OccursAt(pre + SectionMarker, SectionMarker, j)
    requires '{' !in mid
    requires WritableLayouts(ls) && '"' !in end && '{' !in end && '}' !in end
    ensures n in NickServAccounts(Dump(pre, mid, SectionText(ls) + end, post)) <==>
              n !in StructuralNames && exists i :: 0 <= i < |ls| && ls[i].name == n
    ensures forall i :: 0 <= i < |ls| && ls[i].name == n && n !in StructuralNames
                        && (forall j :: i < j < |ls| ==> ls[j].name != n) ==>
              n in NickServAccounts(Dump(pre, mid, SectionText(ls) + end, post))
              && NickServAccounts(Dump(pre, mid, SectionText(ls) + end, post))[n] == Assign(ls[i].props)
  {
    var ms := Matches(ls);
    LayoutAccounts(pre, mid, ls, end, post);
    forall i | 0 <= i < |ls|
      ensures ms[i].name == ls[i].name
      ensures Kept(ms[i]) <==> ls[i].name !in StructuralNames
      ensures PropertiesOf(ms[i].body) == Assign(ls[i].props)
    {
      LayoutKept(ls[i]);
    }
    CollectLayouts(ms, ls, n);
  }

  // ---------------------------------------------------------------------
  // An entry whose block ends with a nested sub-record
  // ---------------------------------------------------------------------

  /** The entry `l` whose properties are followed, inside its block, by
      the sub-record `s`: the entry pattern's group stops at the first `}`,
      the one that closes `s`, so the match ends with the sub-record's
      `};`. */
  function NestedMatch(l: Layout, s: Layout): EntryMatch {
    EntryMatch(l.name, l.gap, l.lead, PropsText(l.props) + s.Head() + "{" + s.Inner())
  }

  /** The whole entry: the match, then white space and the `};` that
      closes the outer block. */
  function NestedText(l: Layout, s: Layout, close: string): string {
    l.sep + NestedMatch(l, s).Consumed() + close + "};"
  }

  /** White space inside the outer block before the sub-record belongs to
      `l.lead` when `l` has no properties of its own. */
  predicate NestedWritable(l: Layout, s: Layout, close: string) {
    l.Framed() && s.Framed() && AllSpace(s.sep) && AllSpace(close) && (l.props == [] ==> s.sep == [])
  }

  lemma HeadStart(s: Layout)
    requires s.sep == []
    ensures s.Head() != [] && s.Head()[0] == '"'
  {
    assert s.Head() == Quoted(s.name) + s.gap;
  }

  /** The group of the entry holding a sub-record: no `}`, and it opens
      with a quote. */
  lemma GroupValid(p: string, x: string, y: string)
    requires '}' !in p && '}' !in x && '}' !in y
    requires p != [] ==> p[0] == '"'
    requires p == [] ==> x != [] && x[0] == '"'
    ensures var b := p + x + "{" + y; b != [] && b[0] == '"' && '}' !in b
  {
    var b := p + x + "{" + y;
    assert forall c :: c in b ==> c in p || c in x || c == '{' || c in y;
    if p == [] {
      assert b[0] == x[0];
    } else {
      assert b[0] == p[0];
    }
  }

  lemma NestedValid(l: Layout, s: Layout, close: string)
    requires NestedWritable(l, s, close)
    ensures NestedMatch(l, s).Valid() && !IsSpace(NestedMatch(l, s).body[0])
  {
    PropsTextStart(l.props);
    PropsTextChars(l.props);
    FrameChars(s);
    if l.props == [] {
      HeadStart(s);
    }
    GroupValid(PropsText(l.props), s.Head(), s.Inner());
  }

  lemma CloseUnquoted(close: string)
    requires AllSpace(close)
    ensures '"' !in close + "};" && '{' !in close + ";" && '}' !in close + ";"
  {
    SpaceNoBrace(close);
    assert forall c :: c in close + "};" ==> c in close || c == '}' || c == ';';
    assert forall c :: c in close + ";" ==> c in close || c == ';';
  }

  lemma Assoc5(a: string, b: string, c: string, d: string, e: string)
    ensures a + b + c + d + e == a + (b + ((c + d) + e))
  {
  }

  /** The entry holding the sub-record is read back as one match, and
      scanning resumes after the outer `};`. */
  lemma NestedMatched(l: Layout, s: Layout, close: string, rest: string)
    requires NestedWritable(l, s, close)
    ensures EntryMatches(NestedText(l, s, close) + rest) == [NestedMatch(l, s)] + EntryMatches(rest)
  {
    var m := NestedMatch(l, s);
    var after := close + "};";
    NestedValid(l, s, close);
    CloseUnquoted(close);
    MatchEntryOf(m, after + rest);
    EntryMatchesStep(m, after + rest);
    SkipUnquoted(after, rest);
    Assoc5(l.sep, m.Consumed(), close, "};", rest);
    SkipUnquoted(l.sep, m.Consumed() + (after + rest));
  }

  /** A balanced text inside one more pair of braces is balanced. */
  lemma Enclosed(a: string, x: string, e: string)
    requires '{' !in a && '}' !in a && '{' !in e && '}' !in e
    requires Depth(x) == 0 && Above(x, 1)
    ensures Depth(a + "{" + x + "}" + e) == 0 && Above(a + "{" + x + "}" + e, 0)
  {
    NoBraceAbove(a, 0);
    BraceAbove('{', 0);
    BraceAbove('}', 1);
    NoBraceAbove(e, 0);
    AboveAppend(a, "{", 0);
    DepthAppend(a, "{");
    AboveAppend(a + "{", x, 0);
    DepthAppend(a + "{", x);
    AboveAppend(a + "{" + x, "}", 0);
    DepthAppend(a + "{" + x, "}");
    AboveAppend(a + "{" + x + "}", e, 0);
    DepthAppend(a + "{" + x + "}", e);
  }

  lemma AboveRaise(x: string)
    requires Above(x, 0)
    ensures Above(x, 1)
  {
  }

  /** The nested entry's text, regrouped around its two pairs of braces. */
  lemma NestedPieces(sep: string, q: string, g: string, lead: string, p: string, h: string, i: string, close: string)
    ensures sep + (q + g + Block(lead, p + h + "{" + i)) + close + "};"
            == (sep + q + g) + "{" + ((lead + p + h) + "{" + i + "}" + (";" + close)) + "}" + ";"
  {
  }

  lemma NestedBalanced(l: Layout, s: Layout, close: string)
    requires NestedWritable(l, s, close)
    ensures Depth(NestedText(l, s, close)) == 0 && Above(NestedText(l, s, close), 0)
  {
    var b := l.Inner() + s.Head();
    var d := ";" + close;
    FrameChars(l);
    FrameChars(s);
    CloseUnquoted(close);
    assert forall c :: c in d ==> c == ';' || c in close + ";";
    assert forall c :: c in b ==> c in l.Inner() || c in s.Head();
    BlockBalanced(b, s.Inner(), d);
    var x := b + "{" + s.Inner() + "}" + d;
    AboveRaise(x);
    NestedPieces(l.sep, Quoted(l.name), l.gap, l.lead, PropsText(l.props), s.Head(), s.Inner(), close);
    Enclosed(l.Head(), x, ";");
  }

  lemma NestedBodyBalanced(l: Layout, s: Layout, close: string, ls: seq<Layout>, end: string)
    requires NestedWritable(l, s, close)
    requires WritableLayouts(ls) && '{' !in end && '}' !in end
    ensures var b := NestedText(l, s, close) + (SectionText(ls) + end); Depth(b) == 0 && Above(b, 0)
  {
    var n := NestedText(l, s, close);
    var r := SectionText(ls) + end;
    NestedBalanced(l, s, close);
    SectionBalanced(ls, end);
    AboveAppend(n, r, 0);
    DepthAppend(n, r);
  }

  /** The accounts of a section whose first entry holds a sub-record. */
  lemma NestedAccounts(pre: string, mid: string, l: Layout, s: Layout, close: string,
                       ls: seq<Layout>, end: string, post: string)
    requires forall j :: 0 <= j < |pre| ==> !OccursAt(pre + SectionMarker, SectionMarker, j)
    requires '{' !in mid
    requires NestedWritable(l, s, close)
    requires WritableLayouts(ls) && '"' !in end && '{' !in end && '}' !in end
    ensures NickServAccounts(Dump(pre, mid, NestedText(l, s, close) + (SectionText(ls) + end), post))
            == Collect([NestedMatch(l, s)] + Matches(ls))
  {
    var n := NestedText(l, s, close);
    var r := SectionText(ls) + end;
    NestedBodyBalanced(l, s, close, ls, end);
    NestedMatched(l, s, close, r);
    SectionMatched(ls, end);
    BodyAccounts(pre, mid, n + r, post, [NestedMatch(l, s)] + Matches(ls));
  }

  lemma NamesAfter(m: EntryMatch, ls: seq<Layout>, n: string, i: nat)
    requires i < |ls| && forall j :: i < j < |ls| ==> ls[j].name != n
    ensures var ms := [m] + Matches(ls); forall j :: i + 1 < j < |ms| ==> ms[j].name != n
  {
    var ns := Matches(ls);
    var ms := [m] + ns;
    forall j | i + 1 < j < |ms|
      ensures ms[j].name != n
    {
      assert ms[j] == ns[j - 1];
    }
  }

  lemma KeptAfter(m: EntryMatch, ls: seq<Layout>, i: nat)
    requires i < |ls| && ls[i].Writable()
    ensures var ms := [m] + Matches(ls);
            ms[i + 1].name == ls[i].name && (Kept(ms[i + 1]) <==> ls[i].name !in StructuralNames)
            && PropertiesOf(ms[i + 1].body) == Assign(ls[i].props)
  {
    var ns := Matches(ls);
    assert ([m] + ns)[i + 1] == ns[i];
    LayoutKept(ls[i]);
  }

  /** After any first match, each later entry that is the last with its
      non-structural name is reported with its own properties. */
  lemma CollectAfter(m: EntryMatch, ls: seq<Layout>, n: string, i: nat)
    requires i < |ls| && ls[i].Writable() && ls[i].name == n && n !in StructuralNames
    requires forall j :: i < j < |ls| ==> ls[j].name != n
    ensures n in Collect([m] + Matches(ls)) && Collect([m] + Matches(ls))[n] == Assign(ls[i].props)
  {
    KeptAfter(m, ls, i);
    NamesAfter(m, ls, n, i);
    CollectLastWins([m] + Matches(ls), i + 1);
  }

  /** The accounts after an entry that holds a sub-record are still read:
      each later entry whose name is not structural, and that is the last
      with its name, is returned with its own properties. */
  lemma NestedSiblings(pre: string, mid: string, l: Layout, s: Layout, close: string,
                       ls: seq<Layout>, end: string, post: string, n: string, i: nat)
    requires forall j :: 0 <= j < |pre| ==> !OccursAt(pre + SectionMarker, SectionMarker, j)
    requires '{' !in mid
    requires NestedWritable(l, s, close)
    requires WritableLayouts(ls) && '"' !in end && '{' !in end && '}' !in end
    requires i < |ls| && ls[i].name == n && n !in StructuralNames
    requires forall j :: i < j < |ls| ==> ls[j].name != n
    ensures var accounts := NickServAccounts(Dump(pre, mid, NestedText(l, s, close) + (SectionText(ls) + end), post));
            n in accounts && accounts[n] == Assign(ls[i].props)
  {
    NestedAccounts(pre, mid, l, s, close, ls, end, post);
    CollectAfter(NestedMatch(l, s), ls, n, i);
  }

  // ---------------------------------------------------------------------
  // The one-line layout
  // ---------------------------------------------------------------------

  /** A quoted property followed by `; `. */
  lemma ScalarWritable(k: string, v: string)
    requires WritableName(k) && '"' !in v && '{' !in v && '}' !in v
    ensures WritableMatch(PropMatch(k, " ", Scalar(v), "; "))
  {
    var m := PropMatch(k, " ", Scalar(v), "; ");
    assert AllSpace(" ");
    assert AllSpace("; "[1..]);
    assert m.Consumed() == "\"" + k + "\"" + (" " + ("\"" + v + "\"") + "; ");
    assert forall c :: c in m.Consumed() ==> c == '"' || c == ' ' || c == ';' || c in k || c in v;
  }

  /** The one-line block `"name" { "key1" "value1"; "key2" "value2"; };`. */
  function OneLine(): Layout {
    Layout("", "name", " ", " ", [PropMatch("key1", " ", Scalar("value1"), "; "),
                                  PropMatch("key2", " ", Scalar("value2"), "; ")])
  }

  /** The one-line block is one of the layouts above. */
  lemma OneLineWritable()
    ensures OneLine().Writable()
  {
    ScalarWritable("key1", "value1");
    ScalarWritable("key2", "value2");
    assert AllSpace(" ");
    assert WritableMatches(OneLine().props);
  }

  /** The text of the one-line block. */
  lemma OneLineText()
    ensures OneLine().Text() == "\"name\"" + " " + "{" + " " + "\"key1\" \"value1\"; " + "\"key2\" \"value2\"; " + "};"
  {
    var l := OneLine();
    var c1 := "\"key1\" \"value1\"; ";
    var c2 := "\"key2\" \"value2\"; ";
    assert l.props[0].Consumed() == c1;
    assert l.props[1].Consumed() == c2;
    assert PropsText(l.props[1..]) == c2 + PropsText([]);
    assert PropsText(l.props) == c1 + c2;
    assert l.Text() == "" + (Quoted("name") + " " + Block(" ", c1 + c2));
  }
}
