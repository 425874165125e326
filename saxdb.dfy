/** The account extractor of the migration analysis script: it locates the
    NickServ section of a SAXDB dump, finds the end of that section by
    counting braces, and reads the properties of every account entry in it. */
module Saxdb {
  import opened Wrappers
  import opened Text

  /** A property value: a quoted scalar without its quotes, or a
      parenthesised list kept verbatim, parentheses included. */
  datatype Value = Scalar(text: string) | RawList(text: string)

  type Properties = map<string, Value>
  type Accounts = map<string, Properties>

  /** The token that introduces the section. */
  const SectionMarker: string := "\"NickServ\""

  /** Entry names inside the section that are not accounts. */
  const StructuralNames: set<string> := {"version_control", "note_types", "dnr", "channels", "bots"}

  /** The string the script stores for a value: the two kinds are not told
      apart there. */
  function Raw(v: Value): string {
    v.text
  }

  /** The stored string loses the kind of value only where a quoted
      scalar is itself written like a list, in parentheses. */
  lemma RawConfusable(v: Value, w: Value)
    requires WellFormedValue(v) && WellFormedValue(w) && v.Scalar? && w.RawList?
    ensures Raw(v) == Raw(w) ==> |Raw(v)| >= 2 && Raw(v)[0] == '(' && Raw(v)[|Raw(v)| - 1] == ')'
  {
  }

  /** Within one kind, the stored string determines the value. */
  lemma RawSameKind(v: Value, w: Value)
    requires v.Scalar? == w.Scalar?
    ensures Raw(v) == Raw(w) <==> v == w
  {
  }

  function Quoted(s: string): string {
    "\"" + s + "\""
  }

  /** How a value is written in the dump. */
  function ValueText(v: Value): string {
    match v
    case Scalar(s) => Quoted(s)
    case RawList(s) => s
  }

  /** The values the property pattern can produce. */
  predicate WellFormedValue(v: Value) {
    match v
    case Scalar(s) => '"' !in s
    case RawList(s) => |s| >= 2 && s[0] == '(' && s[|s| - 1] == ')' && ')' !in s[1..|s| - 1]
  }

  /** What `;?\s*` consumes: an optional semicolon, then white space. */
  predicate IsTerminator(s: string) {
    AllSpace(s) || (s != [] && s[0] == ';' && AllSpace(s[1..]))
  }

  // ---------------------------------------------------------------------
  // The regular expressions, as scanners over the text that follows the
  // position a match is tried at.
  // ---------------------------------------------------------------------

  /** `"([^"]*)"` at the start of `u`: the quoted text. */
  function QuotedAt(u: string): (r: Option<string>)
    ensures r.Some? ==> '"' !in r.value && Quoted(r.value) <= u
  {
    if u == [] || u[0] != '"' then None
    else
      var n := Span(u[1..], NotQuote);
      if 1 + n < |u| then
        assert u[..n + 2] == "\"" + u[1..1 + n] + "\"";
        Some(u[1..1 + n])
      else None
  }

  /** `\([^)]*\)` at the start of `u`: the list text, parentheses included. */
  function ListAt(u: string): (r: Option<string>)
    ensures r.Some? ==> WellFormedValue(RawList(r.value)) && r.value <= u
  {
    if u == [] || u[0] != '(' then None
    else
      var n := Span(u[1..], NotCloseParen);
      if 1 + n < |u| then
        assert u[..n + 2][1..n + 1] == u[1..][..n];
        Some(u[..n + 2])
      else None
  }

  /** `"([^"]*)"|(\([^)]*\))` at the start of `u`. */
  function ValueAt(u: string): (r: Option<Value>)
    ensures r.Some? ==> WellFormedValue(r.value) && ValueText(r.value) <= u
  {
    match QuotedAt(u)
    case Some(s) => Some(Scalar(s))
    case None =>
      match ListAt(u)
      case Some(s) => Some(RawList(s))
      case None => None
  }

  /** One match of `"([^"]+)"\s+(?:"([^"]*)"|(\([^)]*\)));?\s*`, as the
      pieces of text it consumed. */
  datatype PropMatch = PropMatch(key: string, gap: string, value: Value, tail: string) {
    function Consumed(): string {
      Quoted(key) + (gap + ValueText(value) + tail)
    }

    predicate Valid() {
      key != [] && '"' !in key && gap != [] && AllSpace(gap) && WellFormedValue(value) && IsTerminator(tail)
    }
  }

  /** `;?\s*` at the start of `x`: how much it consumes. */
  function TerminatorLength(x: string): (n: nat)
    ensures n <= |x| && IsTerminator(x[..n])
  {
    if x != [] && x[0] == ';' then
      var w := SpaceRun(x[1..]);
      assert x[..1 + w][1..] == x[1..][..w];
      1 + w
    else
      SpaceRun(x)
  }

  /** `\s+(?:"([^"]*)"|(\([^)]*\)));?\s*` at the start of `u`: the white
      space, the value and the terminator. */
  function PropertyRestAt(u: string): (r: Option<(string, Value, string)>)
    ensures r.Some? ==> r.value.0 != [] && AllSpace(r.value.0) && WellFormedValue(r.value.1)
    ensures r.Some? ==> IsTerminator(r.value.2)
  {
    var g := SpaceRun(u);
    if g == 0 then None
    else
      match ValueAt(u[g..])
      case None => None
      case Some(value) =>
        var x := u[g + |ValueText(value)|..];
        Some((u[..g], value, x[..TerminatorLength(x)]))
  }

  /** The white space, value and terminator `PropertyRestAt` returns are
      read, in that order, from the start of `u`. */
  lemma PropertyRestAtPrefix(u: string)
    ensures var r := PropertyRestAt(u);
            r.Some? ==> r.value.0 + ValueText(r.value.1) + r.value.2 <= u
  {
    var g := SpaceRun(u);
    if g > 0 && ValueAt(u[g..]).Some? {
      var value := ValueAt(u[g..]).value;
      var x := u[g + |ValueText(value)|..];
      PrefixJoin3(u, u[..g], ValueText(value), x[..TerminatorLength(x)]);
    }
  }

  /** The property pattern tried at the start of `t`. */
  function MatchProperty(t: string): (r: Option<PropMatch>)
    ensures r.Some? ==> r.value.Valid() && r.value.Consumed() <= t
  {
    match QuotedAt(t)
    case None => None
    case Some(key) =>
      if key == [] then None
      else
        var rest := PropertyRestAt(t[|key| + 2..]);
        if rest.None? then None
        else
          var m := PropMatch(key, rest.value.0, rest.value.1, rest.value.2);
          PropertyRestAtPrefix(t[|key| + 2..]);
          PrefixJoin(t, Quoted(key), rest.value.0 + ValueText(rest.value.1) + rest.value.2);
          Some(m)
  }

  /** Every match of the property pattern in `t`, left to right, as
      `finditer` yields them. */
  function PropertyMatches(t: string): seq<PropMatch>
    decreases |t|
  {
    if t == [] then []
    else
      match MatchProperty(t)
      case Some(m) => [m] + PropertyMatches(t[|m.Consumed()|..])
      case None => PropertyMatches(t[1..])
  }

  /** The dictionary that `props[key] = value` builds over the matches in
      order. */
  function Assign(ms: seq<PropMatch>): Properties {
    if ms == [] then map[]
    else Assign(ms[..|ms| - 1])[ms[|ms| - 1].key := ms[|ms| - 1].value]
  }

  /** The properties of one account, read from its block's text. */
  function PropertiesOf(text: string): Properties {
    Assign(PropertyMatches(text))
  }

  /** One match of `"([^"]+)"\s*\{\s*([^}]+)\s*\};`, as the pieces of text it
      consumed; `body` is the second group. */
  datatype EntryMatch = EntryMatch(name: string, gap: string, lead: string, body: string) {
    function Consumed(): string {
      Quoted(name) + gap + Block(lead, body)
    }

    predicate Valid() {
      name != [] && '"' !in name && AllSpace(gap) && AllSpace(lead) && body != [] && '}' !in body
    }
  }

  /** How an account's block is written. */
  function Block(lead: string, body: string): string {
    "{" + lead + body + "};"
  }

  /** `\{\s*([^}]+)\s*\};` at the start of `x`: the white space before the
      group and the group. The group takes everything up to the first `}`
      after the leading white space; when the block holds nothing but white
      space, the regular expression backtracks and the group is its last
      character. */
  function BlockAt(x: string): (r: Option<(string, string)>)
    ensures r.Some? ==> AllSpace(r.value.0) && r.value.1 != [] && '}' !in r.value.1
  {
    if x == [] || x[0] != '{' then None
    else
      var y := x[1..];
      var c := Span(y, NotCloseBrace);
      if c == 0 || c + 1 >= |y| || y[c + 1] != ';' then None
      else
        var l := SpaceRun(y);
        var lead := if l < c then l else c - 1;
        assert forall i :: 0 <= i < lead ==> y[..lead][i] == y[..l][i];
        Some((y[..lead], y[lead..c]))
  }

  /** The block `BlockAt` returns is read from the start of `x`. */
  lemma BlockAtPrefix(x: string)
    ensures var r := BlockAt(x); r.Some? ==> Block(r.value.0, r.value.1) <= x
  {
    if BlockAt(x).Some? {
      var y := x[1..];
      var c := Span(y, NotCloseBrace);
      var l := SpaceRun(y);
      var lead := if l < c then l else c - 1;
      assert y[c..c + 2] == "};";
      assert x[..1] == "{";
      PrefixJoin4(x, "{", y[..lead], y[lead..c], "};");
    }
  }

  /** The entry pattern tried at the start of `t`. */
  function MatchEntry(t: string): (r: Option<EntryMatch>)
    ensures r.Some? ==> r.value.Valid() && r.value.Consumed() <= t
  {
    match QuotedAt(t)
    case None => None
    case Some(name) =>
      if name == [] then None
      else
        var u := t[|name| + 2..];
        var g := SpaceRun(u);
        match BlockAt(u[g..])
        case None => None
        case Some(block) =>
          var (lead, body) := block;
          BlockAtPrefix(u[g..]);
          PrefixJoin3(t, Quoted(name), u[..g], Block(lead, body));
          Some(EntryMatch(name, u[..g], lead, body))
  }

  /** Every match of the entry pattern in `t`, left to right. */
  function EntryMatches(t: string): seq<EntryMatch>
    decreases |t|
  {
    if t == [] then []
    else
      match MatchEntry(t)
      case Some(m) => [m] + EntryMatches(t[|m.Consumed()|..])
      case None => EntryMatches(t[1..])
  }

  /** An entry that becomes an account: not a structural name, and with at
      least one property. */
  predicate Kept(m: EntryMatch) {
    m.name !in StructuralNames && PropertiesOf(m.body) != map[]
  }

  /** The dictionary the loop over entry matches builds. */
  function Collect(ms: seq<EntryMatch>): Accounts {
    if ms == [] then map[]
    else
      var m := ms[|ms| - 1];
      if Kept(m) then Collect(ms[..|ms| - 1])[m.name := PropertiesOf(m.body)]
      else Collect(ms[..|ms| - 1])
  }

  // ---------------------------------------------------------------------
  // The section and its body
  // ---------------------------------------------------------------------

  function Delta(c: char): int {
    if c == '{' then 1 else if c == '}' then -1 else 0
  }

  /** The depth change over `s`: opening braces minus closing braces, the
      way the scan counts them. */
  function Depth(s: string): int {
    if s == [] then 0 else Depth(s[..|s| - 1]) + Delta(s[|s| - 1])
  }

  /** Where the depth-counted scan stops when it is at `pos` with depth
      `depth`. */
  function ScanEnd(s: string, pos: nat, depth: int): (r: nat)
    requires pos <= |s|
    ensures pos <= r <= |s|
    decreases |s| - pos
  {
    if pos < |s| && depth > 0 then ScanEnd(s, pos + 1, depth + Delta(s[pos])) else pos
  }

  /** `content[start:stop]` for `start <= stop + 1`, as Python slices it. */
  function Slice(s: string, start: nat, stop: int): string
    requires start <= |s| + 1 && stop <= |s|
  {
    if stop < start then [] else s[start..stop]
  }

  /** The body of the section, as the script slices it, or None when the
      marker or the opening brace after it is missing. */
  function SectionBody(content: string): Option<string> {
    SectionBodyAfter(content, SectionMarker)
  }

  /** The same search for any marker `m` that holds no opening brace. */
  function SectionBodyAfter(content: string, m: string): Option<string> {
    match Find(content, m, 0)
    case None => None
    case Some(nsStart) =>
      match Find(content, "{", nsStart)
      case None => None
      case Some(braceStart) => Some(BlockBody(content, braceStart))
  }

  /** The text between the opening brace at `braceStart` and the position
      just before the end of the brace scan. */
  function BlockBody(content: string, braceStart: nat): string
    requires braceStart < |content|
  {
    var pos := ScanEnd(content, braceStart + 1, 1);
    Slice(content, braceStart + 1, pos as int - 1)
  }

  /** What `parse_saxdb_nickserv` returns. */
  function NickServAccounts(content: string): Accounts {
    match SectionBody(content)
    case None => map[]
    case Some(body) => Collect(EntryMatches(body))
  }

  /** The brace scan: from just after the opening brace at `braceStart`, with
      depth 1, until the depth reaches 0 or the text ends. */
  method ScanSection(content: string, braceStart: nat) returns (pos: nat)
    requires braceStart < |content|
    ensures pos == ScanEnd(content, braceStart + 1, 1)
  {
    var depth := 1;
    pos := braceStart + 1;
    while pos < |content| && depth > 0
      invariant braceStart + 1 <= pos <= |content|
      invariant ScanEnd(content, pos, depth) == ScanEnd(content, braceStart + 1, 1)
      decreases |content| - pos
    {
      if content[pos] == '{' {
        depth := depth + 1;
      } else if content[pos] == '}' {
        depth := depth - 1;
      }
      pos := pos + 1;
    }
  }

  /** The loop over the property matches of one entry. */
  method ParseProperties(text: string) returns (props: Properties)
    ensures props == PropertiesOf(text)
  {
    props := map[];
    var matches := PropertyMatches(text);
    for i := 0 to |matches|
      invariant props == Assign(matches[..i])
    {
      assert matches[..i + 1][..i] == matches[..i];
      props := props[matches[i].key := matches[i].value];
    }
    assert matches[..|matches|] == matches;
  }

  /** Locating the section: the two `find` calls, the brace scan and the
      slice. */
  method FindSection(content: string) returns (body: Option<string>)
    ensures body == SectionBody(content)
  {
    var nsStart := Find(content, SectionMarker, 0);
    if nsStart.None? {
      return None;
    }
    var braceStart := Find(content, "{", nsStart.value);
    if braceStart.None? {
      return None;
    }
    var pos := ScanSection(content, braceStart.value);
    body := Some(Slice(content, braceStart.value + 1, pos as int - 1));
  }

  /** The loop over the entry matches of the section body. */
  method CollectAccounts(entries: seq<EntryMatch>) returns (accounts: Accounts)
    ensures accounts == Collect(entries)
  {
    accounts := map[];
    for i := 0 to |entries|
      invariant accounts == Collect(entries[..i])
    {
      assert entries[..i + 1][..i] == entries[..i];
      var m := entries[i];
      if m.name in StructuralNames {
        continue;
      }
      var props := ParseProperties(m.body);
      if props != map[] {
        accounts := accounts[m.name := props];
      }
    }
    assert entries[..|entries|] == entries;
  }

  /** `parse_saxdb_nickserv`. */
  method ParseNickServ(content: string) returns (accounts: Accounts)
    ensures accounts == NickServAccounts(content)
  {
    var body := FindSection(content);
    if body.None? {
      return map[];
    }
    accounts := CollectAccounts(EntryMatches(body.value));
  }
}
