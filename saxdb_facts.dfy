/** What the NickServ extractor guarantees: the dictionaries it builds, the
    extent of the section its brace scan finds, and the cases where it finds
    nothing. */
module SaxdbFacts {
  import opened Wrappers
  import opened Text
  import opened Saxdb

  // ---------------------------------------------------------------------
  // The two dictionaries
  // ---------------------------------------------------------------------

  /** A property dictionary holds exactly the keys that were matched, and a
      key repeated in a block keeps the value of its last match. */
  lemma {:induction false} AssignSpec(ms: seq<PropMatch>, k: string)
    ensures k in Assign(ms) <==> exists i :: 0 <= i < |ms| && ms[i].key == k
    ensures forall i :: 0 <= i < |ms| && ms[i].key == k && (forall j :: i < j < |ms| ==> ms[j].key != k) ==>
              k in Assign(ms) && Assign(ms)[k] == ms[i].value
  {
    if ms != [] {
      var init := ms[..|ms| - 1];
      AssignSpec(init, k);
      assert forall i :: 0 <= i < |init| ==> init[i] == ms[i];
      if ms[|ms| - 1].key != k {
        assert (exists i :: 0 <= i < |ms| && ms[i].key == k) ==> exists i :: 0 <= i < |init| && init[i].key == k;
      }
    }
  }

  /** The fold over entry matches takes one step per match. */
  lemma CollectStep(ms: seq<EntryMatch>)
    requires ms != []
    ensures Kept(ms[|ms| - 1]) ==>
              Collect(ms) == Collect(ms[..|ms| - 1])[ms[|ms| - 1].name := PropertiesOf(ms[|ms| - 1].body)]
    ensures !Kept(ms[|ms| - 1]) ==> Collect(ms) == Collect(ms[..|ms| - 1])
  {
  }

  /** Every reported name comes from a kept entry. */
  lemma {:induction false} CollectKeysFrom(ms: seq<EntryMatch>, n: string)
    requires n in Collect(ms)
    ensures exists i :: 0 <= i < |ms| && ms[i].name == n && Kept(ms[i])
  {
    var init := ms[..|ms| - 1];
    var m := ms[|ms| - 1];
    CollectStep(ms);
    if m.name == n && Kept(m) {
      assert ms[|ms| - 1].name == n && Kept(ms[|ms| - 1]);
    } else {
      assert n in Collect(init);
      CollectKeysFrom(init, n);
      var i :| 0 <= i < |init| && init[i].name == n && Kept(init[i]);
      assert ms[i] == init[i];
    }
  }

  /** Every kept entry's name is reported. */
  lemma {:induction false} CollectKeysTo(ms: seq<EntryMatch>, i: nat)
    requires i < |ms| && Kept(ms[i])
    ensures ms[i].name in Collect(ms)
  {
    var init := ms[..|ms| - 1];
    CollectStep(ms);
    if i < |ms| - 1 {
      assert init[i] == ms[i];
      CollectKeysTo(init, i);
    }
  }

  /** An entry that is dropped, or that has another name, leaves the entry
      for `n` as it was. */
  lemma CollectKeepsOthers(ms: seq<EntryMatch>, n: string)
    requires ms != [] && (ms[|ms| - 1].name != n || !Kept(ms[|ms| - 1]))
    ensures n in Collect(ms) <==> n in Collect(ms[..|ms| - 1])
    ensures n in Collect(ms) ==> Collect(ms)[n] == Collect(ms[..|ms| - 1])[n]
  {
    CollectStep(ms);
  }

  /** A kept last entry sets its own name. */
  lemma CollectLastAt(ms: seq<EntryMatch>)
    requires ms != [] && Kept(ms[|ms| - 1])
    ensures ms[|ms| - 1].name in Collect(ms)
    ensures Collect(ms)[ms[|ms| - 1].name] == PropertiesOf(ms[|ms| - 1].body)
  {
    CollectStep(ms);
  }

  /** A name repeated in the section keeps the properties of its last kept
      entry. */
  lemma {:induction false} CollectLastWins(ms: seq<EntryMatch>, i: nat)
    requires i < |ms| && Kept(ms[i])
    requires forall j :: i < j < |ms| && ms[j].name == ms[i].name ==> !Kept(ms[j])
    ensures ms[i].name in Collect(ms) && Collect(ms)[ms[i].name] == PropertiesOf(ms[i].body)
  {
    var init := ms[..|ms| - 1];
    if i < |ms| - 1 {
      assert init[i] == ms[i];
      forall j | i < j < |init| && init[j].name == init[i].name
        ensures !Kept(init[j])
      {
        assert init[j] == ms[j];
      }
      CollectLastWins(init, i);
      CollectKeepsOthers(ms, ms[i].name);
    } else {
      CollectLastAt(ms);
    }
  }

  /** Every reported account is not a structural entry and has at least one
      property. */
  lemma {:induction false} CollectShape(ms: seq<EntryMatch>)
    ensures forall n :: n in Collect(ms) ==> n !in StructuralNames && Collect(ms)[n] != map[]
  {
    if ms != [] {
      CollectShape(ms[..|ms| - 1]);
      CollectStep(ms);
    }
  }

  /** No structural entry and no account without properties is reported. */
  lemma NickServAccountsShape(content: string)
    ensures forall n :: n in NickServAccounts(content) ==>
              n !in StructuralNames && NickServAccounts(content)[n] != map[]
  {
    match SectionBody(content)
    case None =>
    case Some(body) => CollectShape(EntryMatches(body));
  }

  // ---------------------------------------------------------------------
  // The brace scan
  // ---------------------------------------------------------------------

  lemma {:induction false} DepthAppend(a: string, b: string)
    ensures Depth(a + b) == Depth(a) + Depth(b)
  {
    if b == [] {
      assert a + b == a;
    } else {
      var b' := b[..|b| - 1];
      DepthAppend(a, b');
      var ab := a + b;
      assert ab[..|ab| - 1] == a + b';
      assert ab[|ab| - 1] == b[|b| - 1];
      assert Depth(ab) == Depth(a + b') + Delta(b[|b| - 1]);
      assert Depth(b) == Depth(b') + Delta(b[|b| - 1]);
    }
  }

  lemma DepthFirst(s: string)
    requires s != []
    ensures Depth(s) == Delta(s[0]) + Depth(s[1..])
  {
    assert s == [s[0]] + s[1..];
    DepthAppend([s[0]], s[1..]);
    assert [s[0]][..0] == [];
  }

  /** The scan's depth is the number of opening braces minus the number of
      closing braces. */
  lemma {:induction false} DepthCounts(s: string)
    ensures Depth(s) == multiset(s)['{'] as int - multiset(s)['}'] as int
  {
    if s != [] {
      var init := s[..|s| - 1];
      DepthCounts(init);
      assert s == init + [s[|s| - 1]];
      assert multiset(s) == multiset(init) + multiset{s[|s| - 1]};
    }
  }

  /** The scan stops at the first position where the depth reaches zero, or
      at the end of the text if it never does. */
  lemma {:induction false} ScanEndSpec(s: string, pos: nat, depth: int)
    requires pos <= |s| && depth > 0
    ensures forall k :: pos <= k < ScanEnd(s, pos, depth) ==> depth + Depth(s[pos..k]) > 0
    ensures ScanEnd(s, pos, depth) == |s| || depth + Depth(s[pos..ScanEnd(s, pos, depth)]) == 0
    decreases |s| - pos
  {
    var r := ScanEnd(s, pos, depth);
    assert s[pos..pos] == [];
    if pos < |s| {
      var d := depth + Delta(s[pos]);
      forall k | pos < k <= |s|
        ensures depth + Depth(s[pos..k]) == d + Depth(s[pos + 1..k])
      {
        DepthFirst(s[pos..k]);
        assert s[pos..k][1..] == s[pos + 1..k];
      }
      if d > 0 {
        ScanEndSpec(s, pos + 1, d);
      }
    }
  }

  /** While the depth stays positive, no prefix of the sliced body falls
      below zero. */
  lemma BodyPrefixes(content: string, q: nat, r: nat)
    requires q <= r <= |content|
    requires forall k :: q <= k < r ==> 1 + Depth(content[q..k]) > 0
    ensures var body := Slice(content, q, r as int - 1);
            forall k :: 0 <= k <= |body| ==> Depth(body[..k]) >= 0
  {
    var body := Slice(content, q, r as int - 1);
    forall k | 0 <= k <= |body|
      ensures Depth(body[..k]) >= 0
    {
      assert body[..k] == content[q..q + k];
    }
  }

  /** Where the depth first reaches zero the last character read is a
      closing brace and the text before it is balanced. */
  lemma BodyClosed(content: string, q: nat, r: nat)
    requires q <= r <= |content|
    requires forall k :: q <= k < r ==> 1 + Depth(content[q..k]) > 0
    requires 1 + Depth(content[q..r]) == 0
    ensures q < r && content[r - 1] == '}' && Depth(content[q..r - 1]) == 0
  {
    assert content[q..q] == [];
    var pre := content[q..r - 1];
    assert content[q..r][..|content[q..r]| - 1] == pre;
    assert 1 + Depth(pre) > 0;
  }

  /** The body the script slices out after the opening brace at `b`. Every
      prefix of it is balanced or has more opening braces. If the depth
      reached zero, the scan stopped just after a closing brace, which the
      slice leaves out, and the body is balanced. Otherwise the scan ran to
      the end of the text, and the slice still drops its last character. */
  lemma SectionScan(content: string, b: nat)
    requires b < |content|
    ensures var r := ScanEnd(content, b + 1, 1);
            var body := Slice(content, b + 1, r as int - 1);
            (forall k :: 0 <= k <= |body| ==> Depth(body[..k]) >= 0)
            && (1 + Depth(content[b + 1..r]) == 0 ==>
                  b + 1 < r && content[r - 1] == '}' && body == content[b + 1..r - 1] && Depth(body) == 0)
            && (1 + Depth(content[b + 1..r]) != 0 ==>
                  r == |content| && body == (if b + 1 < r then content[b + 1..r - 1] else []))
  {
    var r := ScanEnd(content, b + 1, 1);
    ScanEndSpec(content, b + 1, 1);
    BodyPrefixes(content, b + 1, r);
    if 1 + Depth(content[b + 1..r]) == 0 {
      BodyClosed(content, b + 1, r);
    }
  }

  /** The scan stops at `t` when the depth stays positive before `t` and
      is zero there. */
  lemma {:induction false} ScanEndAt(s: string, pos: nat, depth: int, t: nat)
    requires pos <= t <= |s|
    requires forall k :: pos <= k < t ==> depth + Depth(s[pos..k]) > 0
    requires depth + Depth(s[pos..t]) == 0
    ensures ScanEnd(s, pos, depth) == t
    decreases t - pos
  {
    assert s[pos..pos] == [];
    if pos < t {
      assert depth > 0;
      var d := depth + Delta(s[pos]);
      var q := pos + 1;
      forall k | q <= k <= t
        ensures d + Depth(s[q..k]) == depth + Depth(s[pos..k])
      {
        DepthFirst(s[pos..k]);
        assert s[pos..k][1..] == s[q..k];
      }
      ScanEndAt(s, q, d, t);
    }
  }

  /** A section whose body is balanced, with no prefix that closes it, ends at
      the closing brace that follows the body. */
  lemma SectionScanCloses(content: string, b: nat, body: string)
    requires b < |content| && body + "}" <= content[b + 1..]
    requires forall k :: 0 <= k <= |body| ==> Depth(body[..k]) >= 0
    requires Depth(body) == 0
    ensures ScanEnd(content, b + 1, 1) == b + |body| + 2
    ensures Slice(content, b + 1, ScanEnd(content, b + 1, 1) as int - 1) == body
  {
    var p, t := b + 1, b + |body| + 2;
    assert content[p..t] == body + "}";
    assert (body + "}")[..|body|] == body;
    forall k | p <= k < t
      ensures 1 + Depth(content[p..k]) > 0
    {
      assert content[p..k] == body[..k - p];
    }
    ScanEndAt(content, p, 1, t);
  }

  // ---------------------------------------------------------------------
  // Nothing to report
  // ---------------------------------------------------------------------

  /** Without the section marker there are no accounts. */
  lemma NoMarkerNoAccounts(content: string)
    requires forall j :: !OccursAt(content, SectionMarker, j)
    ensures NickServAccounts(content) == map[]
  {
    var f := Find(content, SectionMarker, 0);
  }

  /** Without an opening brace after the first section marker there are no
      accounts. */
  lemma NoBraceNoAccounts(content: string, i: nat)
    requires OccursAt(content, SectionMarker, i)
    requires forall j :: 0 <= j < i ==> !OccursAt(content, SectionMarker, j)
    requires forall j :: i <= j < |content| ==> content[j] != '{'
    ensures NickServAccounts(content) == map[]
  {
    FindFirst(content, SectionMarker, 0, i);
    FindCharNone(content, '{', i);
  }
}
