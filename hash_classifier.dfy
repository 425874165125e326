/** The password-hash classifier of the migration analysis script: which
    scheme produced a stored hash, and the scheme's work factor. */
module HashClassifier {
  import opened Wrappers
  import opened Text

  /** The eight tags the classifier reports. */
  datatype Scheme =
    | Empty
    | Pbkdf2Sha256
    | Pbkdf2Sha512
    | Bcrypt
    | Argon2id
    | Md5Seeded
    | Md5Plain
    | Unknown

  /** The tag string the script reports for each scheme. */
  function Tag(s: Scheme): string {
    match s
    case Empty => "empty"
    case Pbkdf2Sha256 => "pbkdf2-sha256"
    case Pbkdf2Sha512 => "pbkdf2-sha512"
    case Bcrypt => "bcrypt"
    case Argon2id => "argon2id"
    case Md5Seeded => "md5-seeded"
    case Md5Plain => "md5-plain"
    case Unknown => "unknown"
  }

  /** Each reported tag names one scheme. */
  lemma TagInjective(a: Scheme, b: Scheme)
    ensures Tag(a) == Tag(b) <==> a == b
  {
  }

  const Pbkdf2Sha256Prefix: string := "$pbkdf2-sha256$"
  const Pbkdf2Sha512Prefix: string := "$pbkdf2-sha512$"
  const Argon2idPrefix: string := "$argon2id$"

  /** `$`, `2`, one of `a`/`b`/`y`, `$`: the four characters the bcrypt test
      looks at. */
  predicate IsBcryptPrefix(h: string) {
    |h| >= 4 && h[0] == '$' && h[1] == '2' && (h[2] == 'a' || h[2] == 'b' || h[2] == 'y') && h[3] == '$'
  }

  /** `detect_algorithm`: the tests in the script's order, first match wins. */
  function DetectAlgorithm(h: string): Scheme {
    if h == "" then Empty
    else if Pbkdf2Sha256Prefix <= h then Pbkdf2Sha256
    else if Pbkdf2Sha512Prefix <= h then Pbkdf2Sha512
    else if IsBcryptPrefix(h) then Bcrypt
    else if Argon2idPrefix <= h then Argon2id
    else if h[0] == '$' && |h| == 41 && AllHex(h[1..]) then Md5Seeded
    else if |h| == 32 && AllHex(h) then Md5Plain
    else Unknown
  }

  /** The format of each scheme on its own, without reference to the order in
      which the classifier tries them. */
  predicate Fits(s: Scheme, h: string)
    decreases if s.Unknown? then 1 else 0
  {
    match s
    case Empty => h == ""
    case Pbkdf2Sha256 => Pbkdf2Sha256Prefix <= h
    case Pbkdf2Sha512 => Pbkdf2Sha512Prefix <= h
    case Bcrypt => IsBcryptPrefix(h)
    case Argon2id => Argon2idPrefix <= h
    case Md5Seeded => |h| == 41 && h[0] == '$' && AllHex(h[1..])
    case Md5Plain => |h| == 32 && AllHex(h)
    case Unknown =>
      !Fits(Empty, h) && !Fits(Pbkdf2Sha256, h) && !Fits(Pbkdf2Sha512, h) && !Fits(Bcrypt, h)
      && !Fits(Argon2id, h) && !Fits(Md5Seeded, h) && !Fits(Md5Plain, h)
  }

  lemma PrefixChar(p: string, h: string, i: nat)
    requires p <= h && i < |p|
    ensures h[i] == p[i]
  {
  }

  /** Characters that each format fixes and that tell the formats apart. */
  lemma Signature(s: Scheme, h: string)
    requires Fits(s, h) && !s.Unknown?
    ensures s.Empty? <==> |h| == 0
    ensures s.Pbkdf2Sha256? ==> |h| >= 15 && h[0] == '$' && h[1] == 'p' && h[11] == '2'
    ensures s.Pbkdf2Sha512? ==> |h| >= 15 && h[0] == '$' && h[1] == 'p' && h[11] == '5'
    ensures s.Bcrypt? ==> |h| >= 4 && h[0] == '$' && h[1] == '2' && h[3] == '$'
    ensures s.Argon2id? ==> |h| >= 10 && h[0] == '$' && h[1] == 'a' && h[2] == 'r'
    ensures s.Md5Seeded? ==> |h| == 41 && h[0] == '$' && IsHexDigit(h[1]) && IsHexDigit(h[2]) && IsHexDigit(h[3])
    ensures s.Md5Plain? ==> |h| == 32 && IsHexDigit(h[0])
  {
    match s
    case Pbkdf2Sha256 =>
      PrefixChar(Pbkdf2Sha256Prefix, h, 0);
      PrefixChar(Pbkdf2Sha256Prefix, h, 1);
      PrefixChar(Pbkdf2Sha256Prefix, h, 11);
    case Pbkdf2Sha512 =>
      PrefixChar(Pbkdf2Sha512Prefix, h, 0);
      PrefixChar(Pbkdf2Sha512Prefix, h, 1);
      PrefixChar(Pbkdf2Sha512Prefix, h, 11);
    case Argon2id =>
      PrefixChar(Argon2idPrefix, h, 0);
      PrefixChar(Argon2idPrefix, h, 1);
      PrefixChar(Argon2idPrefix, h, 2);
    case Md5Seeded =>
      assert h[1..][0] == h[1] && h[1..][1] == h[2] && h[1..][2] == h[3];
    case _ =>
  }

  /** No string has two formats, so the order of the tests decides nothing:
      each prefix checked before the hex checks carries a character that is
      not a hex digit, and the two MD5 formats differ in length. */
  lemma FormatsDisjoint(h: string, s: Scheme, t: Scheme)
    requires s != t && Fits(s, h)
    ensures !Fits(t, h)
  {
    if !s.Unknown? && !t.Unknown? && Fits(t, h) {
      Signature(s, h);
      Signature(t, h);
    }
  }

  /** The classifier reports a scheme exactly when the string has that
      scheme's format. */
  lemma DetectAlgorithmFits(h: string, s: Scheme)
    ensures DetectAlgorithm(h) == s <==> Fits(s, h)
  {
    var d := DetectAlgorithm(h);
    if h != "" && Pbkdf2Sha256Prefix <= h {
      assert h[1] == 'p';
    }
    if h != "" && Pbkdf2Sha512Prefix <= h {
      assert h[1] == 'p';
    }
    if Argon2idPrefix <= h {
      assert h[1] == 'a' && h[2] == 'r';
    }
    assert Fits(d, h);
    if d != s {
      FormatsDisjoint(h, d, s);
    }
  }

  /** `empty` is reported for the empty string and only for it. */
  lemma EmptyIffEmptyString(h: string)
    ensures DetectAlgorithm(h) == Empty <==> h == ""
  {
    DetectAlgorithmFits(h, Empty);
  }

  /** A `$pbkdf2-` or `$argon2` string, or one with a bcrypt prefix, is never
      taken for MD5. */
  lemma PrefixedNeverMd5(h: string)
    requires "$pbkdf2-" <= h || "$argon2" <= h || IsBcryptPrefix(h)
    ensures DetectAlgorithm(h) != Md5Seeded && DetectAlgorithm(h) != Md5Plain
  {
    assert h[0] == '$';
    if "$pbkdf2-" <= h {
      assert h[1] == 'p';
    }
    if "$argon2" <= h {
      assert h[2] == 'r';
    }
    DetectAlgorithmFits(h, Md5Seeded);
    DetectAlgorithmFits(h, Md5Plain);
  }

  /** `$i=` followed by one or more digits and `$` at the start of `t`: the
      digits, or None. */
  function IterationsAt(t: string): (r: Option<string>)
    ensures r.Some? ==> r.value != [] && AllDigits(r.value) && "$i=" + r.value + "$" <= t
  {
    if |t| >= 3 && t[..3] == "$i=" then
      var n := Span(t[3..], IsDigit);
      if n > 0 && 3 + n < |t| && t[3 + n] == '$' then
        assert t[..3 + n + 1] == t[..3] + t[3..3 + n] + [t[3 + n]];
        Some(t[3..3 + n])
      else None
    else None
  }

  /** Every `$i=<digits>$` segment is recognised, with its digits. */
  lemma IterationsAtComplete(d: string, rest: string)
    requires d != [] && AllDigits(d)
    ensures IterationsAt("$i=" + d + "$" + rest) == Some(d)
  {
    var t := "$i=" + d + "$" + rest;
    assert t[3..] == d + ("$" + rest);
    SpanOf(d, "$" + rest, IsDigit);
    assert t[..3] == "$i=";
    assert t[3..3 + |d|] == d;
  }

  /** `re.search(r'\$i=(\d+)\$', h)`: the leftmost segment wins. */
  function SearchIterations(h: string): Option<string>
    decreases |h|
  {
    if h == [] then None
    else match IterationsAt(h)
      case Some(d) => Some(d)
      case None => SearchIterations(h[1..])
  }

  /** CPython's default limit on the number of digits `int()` converts from
      a string (`sys.int_info.default_max_str_digits`). */
  const IntMaxStrDigits: nat := 4300

  /** What a work-factor parser ends with: Python's `None`, an integer, or
      the ValueError `int()` raises, which no caller in the script catches. */
  datatype WorkFactor = NoFactor | Factor(value: nat) | TooManyDigits

  /** `int(d)` on a digit string: its value, or ValueError beyond the limit. */
  function IntOf(d: string): WorkFactor
    requires AllDigits(d)
  {
    if |d| <= IntMaxStrDigits then Factor(DecimalValue(d)) else TooManyDigits
  }

  /** The search passes over text without `$`: no segment can start there. */
  lemma {:induction false} SearchSkips(u: string, t: string)
    requires '$' !in u
    ensures SearchIterations(u + t) == SearchIterations(t)
    decreases |u|
  {
    if u != [] {
      assert u[0] in u;
      assert IterationsAt(u + t) == None by {
        if |u + t| >= 3 {
          assert (u + t)[..3][0] == u[0];
        }
      }
      assert (u + t)[1..] == u[1..] + t;
      SearchSkips(u[1..], t);
    } else {
      assert u + t == t;
    }
  }

  /** `parse_pbkdf2_iterations`. */
  function Pbkdf2Iterations(h: string): WorkFactor {
    match SearchIterations(h)
    case Some(d) => if AllDigits(d) then IntOf(d) else NoFactor
    case None => NoFactor
  }

  /** `$i=` + `d` + `$` occurs in `h` at index `i`. */
  predicate IterationSegmentAt(h: string, i: nat, d: string) {
    i <= |h| && d != [] && AllDigits(d) && "$i=" + d + "$" <= h[i..]
  }

  /** The search finds the first segment, if any: it returns the digits of a
      segment at some index and there is no segment at a smaller one. */
  lemma {:induction false} SearchIterationsFindsFirst(h: string)
    ensures SearchIterations(h).Some? ==>
      exists i: nat :: IterationSegmentAt(h, i, SearchIterations(h).value) &&
        forall j: nat, e: string :: j < i ==> !IterationSegmentAt(h, j, e)
    ensures SearchIterations(h).None? ==> forall i: nat, e: string :: !IterationSegmentAt(h, i, e)
    decreases |h|
  {
    if h == [] {
      forall i: nat, e: string ensures !IterationSegmentAt(h, i, e) {
      }
    } else {
      match IterationsAt(h)
      case Some(d) =>
        assert h[0..] == h;
        assert IterationSegmentAt(h, 0, d);
      case None =>
        forall e: string | IterationSegmentAt(h, 0, e) ensures false {
          assert h[0..] == h;
          var rest := h[|"$i=" + e + "$"|..];
          assert h == "$i=" + e + "$" + rest;
          IterationsAtComplete(e, rest);
        }
        SearchIterationsFindsFirst(h[1..]);
        forall j: nat, e: string | 1 <= j ensures IterationSegmentAt(h, j, e) <==> IterationSegmentAt(h[1..], j - 1, e) {
          if j <= |h| {
            assert h[j..] == h[1..][j - 1..];
          }
        }
        if SearchIterations(h[1..]).Some? {
          var i: nat :| IterationSegmentAt(h[1..], i, SearchIterations(h[1..]).value) &&
            forall j: nat, e: string :: j < i ==> !IterationSegmentAt(h[1..], j, e);
          assert IterationSegmentAt(h, i + 1, SearchIterations(h).value);
          forall j: nat, e: string | j < i + 1 ensures !IterationSegmentAt(h, j, e) {
            if j >= 1 {
              assert !IterationSegmentAt(h[1..], j - 1, e);
            }
          }
        } else {
          forall i: nat, e: string ensures !IterationSegmentAt(h, i, e) {
            if i >= 1 {
              assert !IterationSegmentAt(h[1..], i - 1, e);
            }
          }
        }
    }
  }

  /** `parse_pbkdf2_iterations` returns None exactly when there is no
      `$i=<digits>$` segment. Otherwise the first segment's digits decide:
      their value when there are at most `IntMaxStrDigits` of them, and
      ValueError when there are more. */
  lemma Pbkdf2IterationsSpec(h: string)
    ensures Pbkdf2Iterations(h).NoFactor? <==> forall i: nat, e: string :: !IterationSegmentAt(h, i, e)
    ensures !Pbkdf2Iterations(h).NoFactor? ==>
      exists i: nat, d: string :: IterationSegmentAt(h, i, d) &&
        (forall j: nat, e: string :: j < i ==> !IterationSegmentAt(h, j, e)) &&
        (Pbkdf2Iterations(h).Factor? <==> |d| <= IntMaxStrDigits) &&
        (Pbkdf2Iterations(h).Factor? ==> Pbkdf2Iterations(h).value == DecimalValue(d))
  {
    SearchIterationsFindsFirst(h);
    if SearchIterations(h).Some? {
      var d := SearchIterations(h).value;
      var i: nat :| IterationSegmentAt(h, i, d) && forall j: nat, e: string :: j < i ==> !IterationSegmentAt(h, j, e);
      assert Pbkdf2Iterations(h) == IntOf(d);
    }
  }

  /** `re.match(r'\$2[aby]\$(\d+)\$', h)`: the cost digits, anchored at the
      start; any number of digits is accepted. */
  function BcryptCostDigits(h: string): (r: Option<string>)
    ensures r.Some? ==> IsBcryptPrefix(h) && r.value != [] && AllDigits(r.value) && h[..4] + r.value + "$" <= h
  {
    if IsBcryptPrefix(h) then
      var n := Span(h[4..], IsDigit);
      if n > 0 && 4 + n < |h| && h[4 + n] == '$' then
        assert h[..4 + n + 1] == h[..4] + h[4..4 + n] + [h[4 + n]];
        Some(h[4..4 + n])
      else None
    else None
  }

  /** `parse_bcrypt_cost`. */
  function BcryptCost(h: string): WorkFactor {
    match BcryptCostDigits(h)
    case Some(d) => if AllDigits(d) then IntOf(d) else NoFactor
    case None => NoFactor
  }

  /** A bcrypt prefix followed by digits and `$` yields those digits; the
      cost is their value when there are at most `IntMaxStrDigits` of them,
      and ValueError otherwise. */
  lemma BcryptCostComplete(p: string, d: string, rest: string)
    requires |p| == 4 && IsBcryptPrefix(p) && d != [] && AllDigits(d)
    ensures BcryptCostDigits(p + d + "$" + rest) == Some(d)
    ensures BcryptCost(p + d + "$" + rest).Factor? <==> |d| <= IntMaxStrDigits
    ensures BcryptCost(p + d + "$" + rest).TooManyDigits? <==> |d| > IntMaxStrDigits
    ensures |d| <= IntMaxStrDigits ==> BcryptCost(p + d + "$" + rest).value == DecimalValue(d)
  {
    BcryptDigitsOf(p, d, rest);
    assert BcryptCost(p + d + "$" + rest) == IntOf(d);
  }

  lemma BcryptDigitsOf(p: string, d: string, rest: string)
    requires |p| == 4 && IsBcryptPrefix(p) && d != [] && AllDigits(d)
    ensures BcryptCostDigits(p + d + "$" + rest) == Some(d)
  {
    var h := p + d + "$" + rest;
    assert h[4..] == d + ("$" + rest);
    SpanOf(d, "$" + rest, IsDigit);
    assert h[4..4 + |d|] == d;
  }
}

/** Worked examples, checked against the classifier. */
module HashClassifierExamples {
  import opened Wrappers
  import opened Text
  import opened HashClassifier

  lemma Pbkdf2Example()
    ensures DetectAlgorithm("$pbkdf2-sha256$i=29000$abc$def") == Pbkdf2Sha256
  {
    var h := "$pbkdf2-sha256$i=29000$abc$def";
    assert h == Pbkdf2Sha256Prefix + "i=29000$abc$def";
    DetectAlgorithmFits(h, Pbkdf2Sha256);
  }

  /** The iteration count of a PBKDF2 hash, read from its `$i=` segment. */
  lemma Pbkdf2IterationsExample()
    ensures Pbkdf2Iterations("$pbkdf2-sha256$i=29000$abc$def") == Factor(29000)
  {
    var t := "$i=29000$abc$def";
    assert "$pbkdf2-sha256$i=29000$abc$def" == "$" + ("pbkdf2-sha256" + t);
    assert "$i=" + "29000" + "$" + "abc$def" == t;
    Pbkdf2DigitsAfterPrefix("29000", "abc$def");
    Value29000();
  }

  lemma Value29000()
    ensures DecimalValue("29000") == 29000
  {
    assert "2"[..0] == "";
    assert "29"[..1] == "2";
    assert "290"[..2] == "29";
    assert "2900"[..3] == "290";
    assert "29000"[..4] == "2900";
  }

  /** `$pbkdf2-sha256$i=` + digits + `$` + rest: the search finds those digits. */
  lemma Pbkdf2DigitsAfterPrefix(d: string, rest: string)
    requires d != [] && AllDigits(d)
    ensures Pbkdf2Iterations("$" + ("pbkdf2-sha256" + ("$i=" + d + "$" + rest))) == IntOf(d)
  {
    var t := "$i=" + d + "$" + rest;
    var h := "$" + ("pbkdf2-sha256" + t);
    assert h[1..] == "pbkdf2-sha256" + t;
    assert h[1] == 'p';
    SearchSkips("pbkdf2-sha256", t);
    IterationsAtComplete(d, rest);
  }

  /** More than 4300 digits: `int()` raises ValueError for either work factor;
      4300 digits are still converted. */
  lemma DigitLimitExamples()
    ensures Pbkdf2Iterations("$pbkdf2-sha256$i=" + seq(4301, _ => '9') + "$") == TooManyDigits
    ensures BcryptCost("$2b$" + seq(4301, _ => '1') + "$") == TooManyDigits
    ensures BcryptCost("$2b$" + seq(4300, _ => '1') + "$").Factor?
  {
    var nines := seq(4301, _ => '9');
    assert "$pbkdf2-sha256$i=" + nines + "$" == "$" + ("pbkdf2-sha256" + ("$i=" + nines + "$" + ""));
    Pbkdf2DigitsAfterPrefix(nines, "");
    var long := seq(4301, _ => '1');
    assert "$2b$" + long + "$" == "$2b$" + long + "$" + "";
    BcryptCostComplete("$2b$", long, "");
    var limit := seq(4300, _ => '1');
    assert "$2b$" + limit + "$" == "$2b$" + limit + "$" + "";
    BcryptCostComplete("$2b$", limit, "");
  }

  lemma BcryptExample()
    ensures DetectAlgorithm("$2b$12$abcdefghijklmnopqrstuv") == Bcrypt
  {
    var h := "$2b$12$abcdefghijklmnopqrstuv";
    assert h[0] == '$' && h[1] == '2' && h[2] == 'b' && h[3] == '$';
    assert Pbkdf2Sha256Prefix[1] != h[1] && Pbkdf2Sha512Prefix[1] != h[1];
  }

  lemma BcryptCostExample()
    ensures BcryptCost("$2b$12$salt") == Factor(12)
  {
    BcryptCostComplete("$2b$", "12", "salt");
    assert "$2b$" + "12" + "$" + "salt" == "$2b$12$salt";
    assert DecimalValue("12") == 12 by {
      assert "12"[..1] == "1" && "1"[..0] == "";
    }
  }

  lemma Md5PlainExample()
    ensures DetectAlgorithm("5f4dcc3b5aa765d61d8327deb882cf99") == Md5Plain
  {
    var plain := "5f4dcc3b5aa765d61d8327deb882cf99";
    assert AllHex(plain);
    DetectAlgorithmFits(plain, Md5Plain);
  }

  lemma OtherExamples()
    ensures DetectAlgorithm("") == Empty
    ensures DetectAlgorithm("not-a-real-hash") == Unknown
  {
    var h := "not-a-real-hash";
    assert !IsHexDigit(h[0]) && h[0] != '$';
    DetectAlgorithmFits(h, Unknown);
  }
}
