/** Selecting a GKE version: parsing with an unanchored regular expression, ordering, and the latest of a minor. */
module GkeVersions {
  import opened Common

  datatype Version = Version(major: int, minor: int, patch: int, gkePatch: int)

  const MAX_INT := 0x7FFF_FFFF_FFFF_FFFF

  // ------------------------------------------------------- the regular expression

  /** The pieces of "([0-9]+).([0-9]+).([0-9]+)-gke.([0-9]+)"; the dots match any character but a newline. */
  datatype Item = Digits | AnyChar | Literal(text: string)

  const PATTERN := [Digits, AnyChar, Digits, AnyChar, Digits, Literal("-gke"), AnyChar, Digits]

  predicate IsDigit(c: char) { '0' <= c <= '9' }

  predicate AllDigits(s: string) { forall i :: 0 <= i < |s| ==> IsDigit(s[i]) }

  function LeadingDigits(s: string): (n: nat)
    ensures n <= |s|
  {
    if s == [] || !IsDigit(s[0]) then 0 else 1 + LeadingDigits(s[1..])
  }

  /** Captures of a match that starts at the beginning of s; repetition is greedy and backtracks. */
  function MatchHere(items: seq<Item>, s: string): Option<seq<string>>
    decreases |items|, 1, 0
  {
    if items == [] then Some([])
    else match items[0]
      case AnyChar =>
        if s != [] && s[0] != '\n' then MatchHere(items[1..], s[1..]) else None
      case Literal(t) =>
        if t <= s then MatchHere(items[1..], s[|t|..]) else None
      case Digits => TryLengths(items, s, LeadingDigits(s))
  }

  /** Tries to give the first group n characters, then n-1, down to 1. */
  function TryLengths(items: seq<Item>, s: string, n: nat): Option<seq<string>>
    requires items != [] && n <= |s|
    decreases |items|, 0, n
  {
    if n == 0 then None
    else
      var rest := MatchHere(items[1..], s[n..]);
      if rest.Some? then Some([s[..n]] + rest.value) else TryLengths(items, s, n - 1)
  }

  /** The leftmost match. */
  function FindSubmatch(items: seq<Item>, s: string): Option<seq<string>>
    decreases |s|
  {
    var m := MatchHere(items, s);
    if m.Some? || s == [] then m else FindSubmatch(items, s[1..])
  }

  lemma CapturesAll(items: seq<Item>, s: string)
    ensures MatchHere(items, s).Some? ==> |MatchHere(items, s).value| == Groups(items)
    decreases |items|, 1, 0
  {
    if items != [] {
      match items[0]
      case AnyChar => if s != [] { CapturesAll(items[1..], s[1..]); }
      case Literal(t) => if t <= s { CapturesAll(items[1..], s[|t|..]); }
      case Digits => CapturesAllTry(items, s, LeadingDigits(s));
    }
  }

  lemma CapturesAllTry(items: seq<Item>, s: string, n: nat)
    requires items != [] && items[0].Digits? && n <= |s|
    ensures TryLengths(items, s, n).Some? ==> |TryLengths(items, s, n).value| == Groups(items)
    decreases |items|, 0, n
  {
    if n > 0 {
      CapturesAll(items[1..], s[n..]);
      CapturesAllTry(items, s, n - 1);
    }
  }

  function Groups(items: seq<Item>): nat {
    if items == [] then 0 else (if items[0].Digits? then 1 else 0) + Groups(items[1..])
  }

  lemma {:induction false} FindCapturesFour(s: string)
    ensures FindSubmatch(PATTERN, s).Some? ==> |FindSubmatch(PATTERN, s).value| == 4
    decreases |s|
  {
    CapturesAll(PATTERN, s);
    assert Groups(PATTERN) == 4 by {
      assert Groups(PATTERN[7..]) == 1;
      assert PATTERN[6..][1..] == PATTERN[7..] && PATTERN[5..][1..] == PATTERN[6..] &&
        PATTERN[4..][1..] == PATTERN[5..];
      assert PATTERN[3..][1..] == PATTERN[4..] && PATTERN[2..][1..] == PATTERN[3..] &&
        PATTERN[1..][1..] == PATTERN[2..];
      assert Groups(PATTERN[4..]) == 2;
      assert Groups(PATTERN[2..]) == 3;
    }
    if s != [] { FindCapturesFour(s[1..]); }
  }

  // ------------------------------------------------------- what a match means

  /** Declarative reading: s starts with a text of the pattern whose digit groups are the captures. */
  ghost predicate Derives(items: seq<Item>, s: string, captures: seq<string>)
    decreases |items|
  {
    if items == [] then captures == []
    else match items[0]
      case AnyChar => s != [] && s[0] != '\n' && Derives(items[1..], s[1..], captures)
      case Literal(t) => t <= s && Derives(items[1..], s[|t|..], captures)
      case Digits =>
        && captures != [] && captures[0] != [] && AllDigits(captures[0]) && captures[0] <= s
        && Derives(items[1..], s[|captures[0]|..], captures[1..])
  }

  /** Priority between two derivations: the first group that differs in length is longer. */
  ghost predicate Preferred(a: seq<string>, b: seq<string>) {
    a == [] || b == [] || |a[0]| > |b[0]| || (|a[0]| == |b[0]| && Preferred(a[1..], b[1..]))
  }

  lemma AllDigitsCons(c: char, s: string)
    ensures AllDigits([c] + s) <==> IsDigit(c) && AllDigits(s)
  {
    var t := [c] + s;
    assert t[0] == c;
    assert forall i :: 0 <= i < |s| ==> t[i + 1] == s[i];
    if AllDigits(t) {
      forall i | 0 <= i < |s| ensures IsDigit(s[i]) { assert IsDigit(t[i + 1]); }
    }
  }

  lemma {:induction false} LeadingDigitsIsLongest(s: string, n: nat)
    requires n <= |s|
    ensures AllDigits(s[..n]) <==> n <= LeadingDigits(s)
  {
    if n > 0 {
      LeadingDigitsIsLongest(s[1..], n - 1);
      assert s[..n] == [s[0]] + s[1..][..n - 1];
      AllDigitsCons(s[0], s[1..][..n - 1]);
    }
  }

  /** The matcher finds a derivation whenever there is one, and the preferred one. */
  lemma {:induction false} MatchIsPreferredDerivation(items: seq<Item>, s: string, captures: seq<string>)
    ensures MatchHere(items, s).Some? ==> Derives(items, s, MatchHere(items, s).value)
    ensures Derives(items, s, captures) ==> MatchHere(items, s).Some? && Preferred(MatchHere(items, s).value, captures)
    decreases |items|, 1, 0
  {
    if items != [] {
      match items[0]
      case AnyChar => if s != [] { MatchIsPreferredDerivation(items[1..], s[1..], captures); }
      case Literal(t) => if t <= s { MatchIsPreferredDerivation(items[1..], s[|t|..], captures); }
      case Digits =>
        if Derives(items, s, captures) {
          assert s[..|captures[0]|] == captures[0];
          LeadingDigitsIsLongest(s, |captures[0]|);
        }
        TryIsPreferredDerivation(items, s, LeadingDigits(s), captures);
    }
  }

  lemma {:induction false} TryIsPreferredDerivation(items: seq<Item>, s: string, n: nat, captures: seq<string>)
    requires items != [] && items[0].Digits? && n <= LeadingDigits(s)
    ensures TryLengths(items, s, n).Some? ==> Derives(items, s, TryLengths(items, s, n).value)
    ensures Derives(items, s, captures) && |captures[0]| <= n ==>
      TryLengths(items, s, n).Some? && Preferred(TryLengths(items, s, n).value, captures)
    decreases |items|, 0, n
  {
    if n > 0 {
      LeadingDigitsIsLongest(s, n);
      var rest := MatchHere(items[1..], s[n..]);
      MatchIsPreferredDerivation(items[1..], s[n..], if captures == [] then [] else captures[1..]);
      TryIsPreferredDerivation(items, s, n - 1, captures);
      if rest.Some? {
        assert ([s[..n]] + rest.value)[1..] == rest.value;
      }
    }
  }

  ghost predicate MatchesAt(items: seq<Item>, s: string, k: nat) {
    k <= |s| && exists c :: Derives(items, s[k..], c)
  }

  lemma MatchesAtIff(items: seq<Item>, s: string, k: nat)
    requires k <= |s|
    ensures MatchesAt(items, s, k) <==> MatchHere(items, s[k..]).Some?
  {
    var m := MatchHere(items, s[k..]);
    MatchIsPreferredDerivation(items, s[k..], []);
    assert m.Some? ==> Derives(items, s[k..], m.value);
    forall c ensures Derives(items, s[k..], c) ==> m.Some? { MatchIsPreferredDerivation(items, s[k..], c); }
  }

  /** A string is matched exactly when the pattern's text occurs somewhere in it, and the leftmost occurrence counts. */
  lemma {:induction false} FindIsLeftmost(items: seq<Item>, s: string)
    ensures FindSubmatch(items, s).Some? <==> exists k: nat :: MatchesAt(items, s, k)
    ensures forall k: nat :: MatchesAt(items, s, k) && (forall j: nat :: j < k ==> !MatchesAt(items, s, j)) ==>
      FindSubmatch(items, s) == MatchHere(items, s[k..])
    decreases |s|
  {
    assert s[0..] == s;
    MatchesAtIff(items, s, 0);
    if MatchHere(items, s).None? && s != [] {
      FindIsLeftmost(items, s[1..]);
      forall k: nat ensures k < |s| ==> (MatchesAt(items, s[1..], k) <==> MatchesAt(items, s, k + 1)) {
        if k < |s| { assert s[1..][k..] == s[k + 1..]; }
      }
      if k: nat :| MatchesAt(items, s, k) {
        assert MatchesAt(items, s[1..], k - 1);
      }
      if k: nat :| MatchesAt(items, s[1..], k) {
        assert MatchesAt(items, s, k + 1);
      }
      forall k: nat | MatchesAt(items, s, k) && (forall j: nat :: j < k ==> !MatchesAt(items, s, j))
        ensures FindSubmatch(items, s) == MatchHere(items, s[k..])
      {
        assert MatchesAt(items, s[1..], k - 1);
        assert s[1..][k - 1..] == s[k..];
      }
    }
  }

  // ------------------------------------------------------- numbers

  function Value(s: string): nat
    requires AllDigits(s)
  {
    if s == [] then 0 else Value(s[..|s| - 1]) * 10 + (s[|s| - 1] - '0') as nat
  }

  /** strconv.Atoi on a digit string: out of range is an error. */
  function Atoi(s: string): Option<int> {
    if s != [] && AllDigits(s) && Value(s) <= MAX_INT then Some(Value(s)) else None
  }

  function Decimal(n: nat): string {
    var d := [('0' as int + n % 10) as char];
    if n < 10 then d else Decimal(n / 10) + d
  }

  lemma {:induction false} DecimalValue(n: nat)
    ensures Decimal(n) != [] && AllDigits(Decimal(n)) && Value(Decimal(n)) == n
  {
    var d := [('0' as int + n % 10) as char];
    if n < 10 {
      assert d[..0] == [];
    } else {
      DecimalValue(n / 10);
      var s := Decimal(n);
      assert s[..|s| - 1] == Decimal(n / 10) && s[|s| - 1] == d[0];
    }
  }

  // ------------------------------------------------------- parsing and printing

  function ParseGkeVersion(s: string): Option<Version> {
    var m := FindSubmatch(PATTERN, s);
    FindCapturesFour(s);
    if m.None? then None
    else
      var a, b, c, d := Atoi(m.value[0]), Atoi(m.value[1]), Atoi(m.value[2]), Atoi(m.value[3]);
      if a.Some? && b.Some? && c.Some? && d.Some? then Some(Version(a.value, b.value, c.value, d.value)) else None
  }

  predicate Printable(v: Version) {
    0 <= v.major <= MAX_INT && 0 <= v.minor <= MAX_INT && 0 <= v.patch <= MAX_INT && 0 <= v.gkePatch <= MAX_INT
  }

  function Print(v: Version): string
    requires Printable(v)
  {
    Decimal(v.major) + ("." + (Decimal(v.minor) + ("." + (Decimal(v.patch) + ("-gke" + ("." + Decimal(v.gkePatch)))))))
  }

  lemma {:induction false} LeadingDigitsOf(d: string, rest: string)
    requires AllDigits(d) && (rest != [] ==> !IsDigit(rest[0]))
    ensures LeadingDigits(d + rest) == |d|
  {
    if d == [] {
      assert d + rest == rest;
    } else {
      assert (d + rest)[1..] == d[1..] + rest;
      LeadingDigitsOf(d[1..], rest);
    }
  }

  /** A whole run of digits is taken when what follows it matches. */
  lemma DigitsThen(items: seq<Item>, d: string, rest: string, captures: seq<string>)
    requires items != [] && items[0].Digits? && d != [] && AllDigits(d)
    requires rest != [] ==> !IsDigit(rest[0])
    requires MatchHere(items[1..], rest) == Some(captures)
    ensures MatchHere(items, d + rest) == Some([d] + captures)
  {
    LeadingDigitsOf(d, rest);
    var s := d + rest;
    assert s[|d|..] == rest && s[..|d|] == d;
  }

  lemma AnyThen(items: seq<Item>, c: char, rest: string)
    requires items != [] && items[0].AnyChar? && c != '\n'
    ensures MatchHere(items, [c] + rest) == MatchHere(items[1..], rest)
  {
    assert ([c] + rest)[1..] == rest;
  }

  lemma LiteralThen(items: seq<Item>, t: string, rest: string)
    requires items != [] && items[0] == Literal(t)
    ensures MatchHere(items, t + rest) == MatchHere(items[1..], rest)
  {
    assert (t + rest)[|t|..] == rest;
  }

  /** The three-piece tail "c-gke.d". */
  lemma MatchTail(c: string, d: string)
    requires c != [] && d != [] && AllDigits(c) && AllDigits(d)
    ensures MatchHere(PATTERN[4..], c + ("-gke" + ("." + d))) == Some([c, d])
  {
    assert PATTERN[7..][1..] == [] && PATTERN[6..][1..] == PATTERN[7..];
    assert PATTERN[5..][1..] == PATTERN[6..] && PATTERN[4..][1..] == PATTERN[5..];
    assert MatchHere([], "") == Some([]);
    assert d + [] == d;
    DigitsThen(PATTERN[7..], d, [], []);
    assert [d] + [] == [d];
    AnyThen(PATTERN[6..], '.', d);
    LiteralThen(PATTERN[5..], "-gke", "." + d);
    DigitsThen(PATTERN[4..], c, "-gke" + ("." + d), [d]);
    assert [c] + [d] == [c, d];
  }

  /** One leading group: digits, any character, and the rest. */
  lemma MatchGroup(k: nat, a: string, rest: string, captures: seq<string>)
    requires k + 2 <= |PATTERN| && PATTERN[k].Digits? && PATTERN[k + 1].AnyChar?
    requires a != [] && AllDigits(a)
    requires MatchHere(PATTERN[k + 2..], rest) == Some(captures)
    ensures MatchHere(PATTERN[k..], a + ("." + rest)) == Some([a] + captures)
  {
    assert PATTERN[k + 1..][1..] == PATTERN[k + 2..] && PATTERN[k..][1..] == PATTERN[k + 1..];
    AnyThen(PATTERN[k + 1..], '.', rest);
    DigitsThen(PATTERN[k..], a, "." + rest, captures);
  }

  lemma MatchPrinted(a: string, b: string, c: string, d: string)
    requires a != [] && b != [] && c != [] && d != []
    requires AllDigits(a) && AllDigits(b) && AllDigits(c) && AllDigits(d)
    ensures MatchHere(PATTERN, a + ("." + (b + ("." + (c + ("-gke" + ("." + d))))))) == Some([a, b, c, d])
  {
    var tail := c + ("-gke" + ("." + d));
    MatchTail(c, d);
    MatchGroup(2, b, tail, [c, d]);
    MatchGroup(0, a, b + ("." + tail), [b] + [c, d]);
    assert PATTERN[0..] == PATTERN;
    assert [a] + ([b] + [c, d]) == [a, b, c, d];
  }

  /** Parsing a printed version returns that version. */
  lemma PrintParse(v: Version)
    requires Printable(v)
    ensures ParseGkeVersion(Print(v)) == Some(v)
  {
    DecimalValue(v.major);
    DecimalValue(v.minor);
    DecimalValue(v.patch);
    DecimalValue(v.gkePatch);
    MatchPrinted(Decimal(v.major), Decimal(v.minor), Decimal(v.patch), Decimal(v.gkePatch));
  }

  // ------------------------------------------------------- what is parsed, without the matcher

  ghost predicate Numeral(t: string) {
    t != "" && forall i :: 0 <= i < |t| ==> '0' <= t[i] <= '9'
  }

  /** s starts with a numeral, any character but a newline, another numeral and so on, with "-gke" before the last. */
  ghost predicate Spells(s: string, captures: seq<string>) {
    |captures| == 4
    && var a, b, c, d := captures[0], captures[1], captures[2], captures[3];
    && Numeral(a) && Numeral(b) && Numeral(c) && Numeral(d)
    && a <= s && |a| < |s| && s[|a|] != '\n'
    && var s1 := s[|a| + 1..];
    && b <= s1 && |b| < |s1| && s1[|b|] != '\n'
    && var s2 := s1[|b| + 1..];
    && c <= s2 && "-gke" <= s2[|c|..]
    && var s3 := s2[|c|..][4..];
    && s3 != "" && s3[0] != '\n' && d <= s3[1..]
  }

  lemma LastSpells(s: string, captures: seq<string>)
    ensures Derives(PATTERN[7..], s, captures) <==> |captures| == 1 && Numeral(captures[0]) && captures[0] <= s
  {
    assert PATTERN[7..][1..] == [];
  }

  lemma TailSpells(s: string, captures: seq<string>)
    ensures Derives(PATTERN[4..], s, captures) <==>
      && |captures| == 2 && Numeral(captures[0]) && Numeral(captures[1])
      && captures[0] <= s && "-gke" <= s[|captures[0]|..]
      && var s3 := s[|captures[0]|..][4..]; s3 != "" && s3[0] != '\n' && captures[1] <= s3[1..]
  {
    assert PATTERN[4..][1..] == PATTERN[5..] && PATTERN[5..][1..] == PATTERN[6..] && PATTERN[6..][1..] == PATTERN[7..];
    if captures != [] && captures[0] <= s {
      var x, rest := s[|captures[0]|..], captures[1..];
      assert Derives(PATTERN[5..], x, rest) <==> "-gke" <= x && Derives(PATTERN[6..], x[4..], rest);
      if "-gke" <= x && x[4..] != "" { LastSpells(x[4..][1..], rest); }
    }
  }

  lemma GroupSpells(k: nat, s: string, captures: seq<string>)
    requires k + 2 <= |PATTERN| && PATTERN[k].Digits? && PATTERN[k + 1].AnyChar?
    ensures Derives(PATTERN[k..], s, captures) <==>
      && captures != [] && Numeral(captures[0]) && captures[0] <= s && |captures[0]| < |s| && s[|captures[0]|] != '\n'
      && Derives(PATTERN[k + 2..], s[|captures[0]| + 1..], captures[1..])
  {
    assert PATTERN[k..][1..] == PATTERN[k + 1..] && PATTERN[k + 1..][1..] == PATTERN[k + 2..];
    if captures != [] && captures[0] <= s && |captures[0]| < |s| {
      assert s[|captures[0]|..][1..] == s[|captures[0]| + 1..];
    }
  }

  lemma DerivesIsSpelling(s: string, captures: seq<string>)
    ensures Derives(PATTERN, s, captures) <==> Spells(s, captures)
  {
    assert PATTERN[0..] == PATTERN;
    GroupSpells(0, s, captures);
    if captures != [] && captures[0] <= s && |captures[0]| < |s| {
      var s1, rest := s[|captures[0]| + 1..], captures[1..];
      GroupSpells(2, s1, rest);
      if rest != [] && rest[0] <= s1 && |rest[0]| < |s1| {
        TailSpells(s1[|rest[0]| + 1..], rest[1..]);
      }
    }
  }

  lemma {:induction false} SamePreference(items: seq<Item>, s: string, a: seq<string>, b: seq<string>)
    requires Derives(items, s, a) && Derives(items, s, b) && Preferred(a, b) && Preferred(b, a)
    ensures a == b
    decreases |items|
  {
    if items != [] {
      match items[0]
      case AnyChar => SamePreference(items[1..], s[1..], a, b);
      case Literal(t) => SamePreference(items[1..], s[|t|..], a, b);
      case Digits =>
        assert a[0] == s[..|a[0]|] && b[0] == s[..|b[0]|];
        SamePreference(items[1..], s[|a[0]|..], a[1..], b[1..]);
        assert a == [a[0]] + a[1..] && b == [b[0]] + b[1..];
    }
  }

  /**
   * What is parsed: the leftmost place that spells a version, with each numeral in turn as long as
   * possible; the version has the values of the numerals, unless one exceeds 64 signed bits.
   */
  lemma ParseMeans(s: string, k: nat, captures: seq<string>)
    requires k <= |s| && Spells(s[k..], captures)
    requires forall j: nat, c :: j < k ==> !Spells(s[j..], c)
    requires forall c :: Spells(s[k..], c) ==> Preferred(captures, c)
    ensures forall i :: 0 <= i < 4 ==> AllDigits(captures[i])
    ensures ParseGkeVersion(s)
         == if forall i :: 0 <= i < 4 ==> Value(captures[i]) <= 9223372036854775807
            then Some(Version(Value(captures[0]), Value(captures[1]), Value(captures[2]), Value(captures[3])))
            else None
  {
    FindMeans(s, k, captures);
    ParseOfCaptures(s, captures);
  }

  lemma ParseOfCaptures(s: string, captures: seq<string>)
    requires FindSubmatch(PATTERN, s) == Some(captures) && |captures| == 4
    requires Numeral(captures[0]) && Numeral(captures[1]) && Numeral(captures[2]) && Numeral(captures[3])
    ensures forall i :: 0 <= i < 4 ==> AllDigits(captures[i])
    ensures ParseGkeVersion(s)
         == if forall i :: 0 <= i < 4 ==> Value(captures[i]) <= 9223372036854775807
            then Some(Version(Value(captures[0]), Value(captures[1]), Value(captures[2]), Value(captures[3])))
            else None
  {
    AtoiOf(captures[0]);
    AtoiOf(captures[1]);
    AtoiOf(captures[2]);
    AtoiOf(captures[3]);
  }

  lemma AtoiOf(t: string)
    requires Numeral(t)
    ensures AllDigits(t) && Atoi(t) == if Value(t) <= 9223372036854775807 then Some(Value(t)) else None
  {
  }

  lemma FindMeans(s: string, k: nat, captures: seq<string>)
    requires k <= |s| && Spells(s[k..], captures)
    requires forall j: nat, c :: j < k ==> !Spells(s[j..], c)
    requires forall c :: Spells(s[k..], c) ==> Preferred(captures, c)
    ensures FindSubmatch(PATTERN, s) == Some(captures)
  {
    forall j: nat | j < k ensures !MatchesAt(PATTERN, s, j) {
      forall c ensures !Derives(PATTERN, s[j..], c) { DerivesIsSpelling(s[j..], c); }
    }
    DerivesIsSpelling(s[k..], captures);
    assert MatchesAt(PATTERN, s, k);
    FindIsLeftmost(PATTERN, s);
    MatchIsPreferredDerivation(PATTERN, s[k..], captures);
    var m := MatchHere(PATTERN, s[k..]).value;
    DerivesIsSpelling(s[k..], m);
    SamePreference(PATTERN, s[k..], m, captures);
  }

  /** Nothing is parsed where nothing is spelled. */
  lemma NoParse(s: string)
    requires forall k: nat, c :: k <= |s| ==> !Spells(s[k..], c)
    ensures ParseGkeVersion(s).None?
  {
    forall k: nat ensures !MatchesAt(PATTERN, s, k) {
      if k <= |s| {
        forall c ensures !Derives(PATTERN, s[k..], c) { DerivesIsSpelling(s[k..], c); }
      }
    }
    FindIsLeftmost(PATTERN, s);
  }

  /** Decimal notation and the order of the components, on 1.29.2-gke.30. */
  lemma PrintsInDecimal()
    ensures Print(Version(1, 29, 2, 30)) == "1" + ("." + ("29" + ("." + ("2" + ("-gke" + ("." + "30"))))))
  {
    OneDigit(1);
    TwoDigits(2, 9);
    OneDigit(2);
    TwoDigits(3, 0);
    assert "29" == ['2', '9'] && "30" == ['3', '0'];
  }

  lemma OneDigit(a: nat)
    requires a <= 9
    ensures Decimal(a) == [('0' as int + a) as char]
  {
  }

  lemma TwoDigits(a: nat, b: nat)
    requires 1 <= a <= 9 && b <= 9
    ensures Decimal(10 * a + b) == [('0' as int + a) as char, ('0' as int + b) as char]
  {
    assert (10 * a + b) / 10 == a && (10 * a + b) % 10 == b;
    assert Decimal(a) == [('0' as int + a) as char];
  }

  lemma ParsedIsPrintable(s: string)
    ensures ParseGkeVersion(s).Some? ==> Printable(ParseGkeVersion(s).value)
  {
  }

  // ------------------------------------------------------- order

  predicate Greater(g: Version, o: Version) {
    if g.major != o.major then g.major > o.major
    else if g.minor != o.minor then g.minor > o.minor
    else if g.patch != o.patch then g.patch > o.patch
    else g.gkePatch > o.gkePatch
  }

  predicate NotBelow(a: Version, b: Version) { !Greater(b, a) }

  /** greater is a strict total order, so sorting by it is sorting by a total preorder. */
  lemma GreaterIsStrictTotalOrder()
    ensures forall a: Version :: !Greater(a, a)
    ensures forall a: Version, b: Version :: a != b ==> (Greater(a, b) <==> !Greater(b, a))
    ensures forall a, b, c :: Greater(a, b) && Greater(b, c) ==> Greater(a, c)
    ensures TotalPreorder(NotBelow)
    ensures forall a, b :: NotBelow(a, b) <==> InOrder(a, b)
  {
  }

  /** b may follow a in descending order: the first component that differs, if any, is smaller in b. */
  ghost predicate InOrder(a: Version, b: Version) {
    && b.major <= a.major
    && (b.major == a.major ==> b.minor <= a.minor)
    && (b.major == a.major && b.minor == a.minor ==> b.patch <= a.patch)
    && (b.major == a.major && b.minor == a.minor && b.patch == a.patch ==> b.gkePatch <= a.gkePatch)
  }

  // ------------------------------------------------------- selection

  datatype Error = Unparsable | NoVersions | MinorUnavailable(minor: int)

  ghost predicate AllParse(raw: seq<string>) {
    forall i :: 0 <= i < |raw| ==> ParseGkeVersion(raw[i]).Some?
  }

  /** Only meaningful for strings that parse. */
  ghost function ParsedValue(s: string): Version {
    var v := ParseGkeVersion(s);
    if v.Some? then v.value else Version(0, 0, 0, 0)
  }

  ghost function Parsed(raw: seq<string>): seq<Version>
    requires AllParse(raw)
  {
    Mapped(ParsedValue, raw)
  }

  lemma ParsedAt(raw: seq<string>, i: nat)
    requires AllParse(raw) && i < |raw|
    ensures |Parsed(raw)| == |raw| && Parsed(raw)[i] == ParseGkeVersion(raw[i]).value
  {
    assert Parsed(raw)[i] == ParsedValue(raw[i]);
  }

  /** No listed version has a larger major, or the same major and a larger minor. */
  ghost predicate HasLatestMinor(versions: seq<Version>, v: Version) {
    && v in versions
    && forall o :: o in versions ==> o.major <= v.major && (o.major == v.major ==> o.minor <= v.minor)
  }

  /** Of the versions of that minor none has a larger major, then patch, then GKE patch. */
  ghost predicate IsLatestOfMinor(versions: seq<Version>, v: Version, minor: int) {
    && v in versions && v.minor == minor
    && forall o :: o in versions && o.minor == minor ==>
         && o.major <= v.major
         && (o.major == v.major ==> o.patch <= v.patch)
         && (o.major == v.major && o.patch == v.patch ==> o.gkePatch <= v.gkePatch)
  }

  /** What the selection promises about the listed versions, without mentioning their order. */
  ghost predicate Selects(versions: seq<Version>, backstep: int, r: Result<string, Error>) {
    if versions == [] then r == Err(NoVersions)
    else exists top :: SelectsFrom(versions, top, backstep, r)
  }

  ghost predicate SelectsFrom(versions: seq<Version>, top: Version, backstep: int, r: Result<string, Error>) {
    HasLatestMinor(versions, top) && SelectsMinor(versions, top.minor - backstep, r)
  }

  ghost predicate SelectsMinor(versions: seq<Version>, minor: int, r: Result<string, Error>) {
    if r.Ok? then exists v :: IsLatestOfMinor(versions, v, minor) && Printable(v) && r.value == Print(v)
    else r == Err(MinorUnavailable(minor)) && forall o :: o in versions ==> o.minor != minor
  }

  ghost predicate Descending(versions: seq<Version>) {
    forall i, j :: 0 <= i < j < |versions| ==> InOrder(versions[i], versions[j])
  }

  method ConvertToSortedGKEVersions(raw: seq<string>) returns (r: Option<seq<Version>>)
    ensures r.Some? <==> AllParse(raw)
    ensures r.Some? ==> Descending(r.value) && multiset(r.value) == multiset(Parsed(raw))
  {
    var v: seq<Version> := [];
    for i := 0 to |raw|
      invariant |v| == i
      invariant forall j :: 0 <= j < i ==> ParseGkeVersion(raw[j]) == Some(v[j])
    {
      var version := ParseGkeVersion(raw[i]);
      if version.None? { return None; }
      v := v + [version.value];
    }
    forall j | 0 <= j < |raw| ensures v[j] == Parsed(raw)[j] { ParsedAt(raw, j); }
    assert v == Parsed(raw);
    GreaterIsStrictTotalOrder();
    var sorted := Sort(v, NotBelow);
    return Some(sorted);
  }

  /** The whole promise, for raw version strings. */
  ghost predicate Answers(raw: seq<string>, backstep: int, r: Result<string, Error>) {
    if AllParse(raw) then Selects(Parsed(raw), backstep, r) else r == Err(Unparsable)
  }

  method GetGKELatestForMinor(raw: seq<string>, backstep: int) returns (r: Result<string, Error>)
    ensures Answers(raw, backstep, r)
  {
    var sorted := ConvertToSortedGKEVersions(raw);
    if sorted.None? { return Err(Unparsable); }
    var versions := sorted.value;
    ghost var listed := Parsed(raw);
    SameElements(versions, listed);
    if |versions| == 0 { return Err(NoVersions); }
    var targetMinor := versions[0].minor - backstep;
    for i := 0 to |versions|
      invariant forall j :: 0 <= j < i ==> versions[j].minor != targetMinor
    {
      if versions[i].minor == targetMinor {
        ListedArePrintable(raw);
        FirstOfMinor(versions, listed, i, targetMinor);
        r := Ok(Print(versions[i]));
        assert SelectsFrom(listed, versions[0], backstep, r);
        return;
      }
    }
    r := Err(MinorUnavailable(targetMinor));
    HeadHasLatestMinor(versions, listed);
    assert SelectsFrom(listed, versions[0], backstep, r);
  }

  lemma ListedArePrintable(raw: seq<string>)
    requires AllParse(raw)
    ensures forall v :: v in Parsed(raw) ==> Printable(v)
  {
    forall i | 0 <= i < |raw| ensures Printable(Parsed(raw)[i]) {
      ParsedAt(raw, i);
      ParsedIsPrintable(raw[i]);
    }
  }

  lemma HeadHasLatestMinor(versions: seq<Version>, listed: seq<Version>)
    requires Descending(versions) && versions != [] && forall v :: v in versions <==> v in listed
    ensures HasLatestMinor(listed, versions[0])
  {
    forall o | o in listed
      ensures o.major <= versions[0].major && (o.major == versions[0].major ==> o.minor <= versions[0].minor)
    {
      assert o in versions;
      var k :| 0 <= k < |versions| && versions[k] == o;
    }
  }

  /** In sorted order, the first version of a minor is the greatest of that minor. */
  lemma FirstOfMinor(versions: seq<Version>, listed: seq<Version>, i: nat, minor: int)
    requires Descending(versions) && forall v :: v in versions <==> v in listed
    requires i < |versions| && versions[i].minor == minor && forall j :: 0 <= j < i ==> versions[j].minor != minor
    ensures HasLatestMinor(listed, versions[0]) && IsLatestOfMinor(listed, versions[i], minor)
  {
    HeadHasLatestMinor(versions, listed);
    assert versions[i] in listed;
    forall o | o in listed && o.minor == minor ensures InOrder(versions[i], o) {
      assert o in versions;
      var k :| 0 <= k < |versions| && versions[k] == o;
    }
  }

  lemma AllParseOfPermutation(a: seq<string>, b: seq<string>)
    requires multiset(a) == multiset(b) && AllParse(a)
    ensures AllParse(b)
  {
    SameElements(a, b);
    forall i | 0 <= i < |b| ensures ParseGkeVersion(b[i]).Some? {
      assert b[i] in a;
      var j :| 0 <= j < |a| && a[j] == b[i];
    }
  }

  /** Reordered input parses to reordered versions. */
  lemma ParsedOfPermutation(a: seq<string>, b: seq<string>)
    requires multiset(a) == multiset(b) && AllParse(a) && AllParse(b)
    ensures multiset(Parsed(a)) == multiset(Parsed(b))
  {
    MappedOfPermutation(ParsedValue, a, b);
  }

  /** Reordering the input strings does not change the answer, errors included. */
  lemma AnswerIgnoresInputOrder(a: seq<string>, b: seq<string>, backstep: int, r: Result<string, Error>,
                                s: Result<string, Error>)
    requires multiset(a) == multiset(b)
    requires Answers(a, backstep, r) && Answers(b, backstep, s)
    ensures r == s
  {
    if AllParse(a) { AllParseOfPermutation(a, b); }
    if AllParse(b) { AllParseOfPermutation(b, a); }
    if AllParse(a) {
      ParsedOfPermutation(a, b);
      SelectionIgnoresOrder(Parsed(a), Parsed(b), backstep, r, s);
    }
  }

  /** Reordering the listed versions does not change the answer. */
  lemma SelectionIgnoresOrder(a: seq<Version>, b: seq<Version>, backstep: int, r: Result<string, Error>,
                              s: Result<string, Error>)
    requires multiset(a) == multiset(b)
    requires Selects(a, backstep, r) && Selects(b, backstep, s)
    ensures r == s
  {
    SameElements(a, b);
    if a != [] {
      var t :| SelectsFrom(a, t, backstep, r);
      var u :| SelectsFrom(b, u, backstep, s);
      SelectionFromIgnoresOrder(a, b, t, u, backstep, r, s);
    }
  }

  lemma SelectionFromIgnoresOrder(a: seq<Version>, b: seq<Version>, t: Version, u: Version, backstep: int,
                                  r: Result<string, Error>, s: Result<string, Error>)
    requires forall v :: v in a <==> v in b
    requires SelectsFrom(a, t, backstep, r) && SelectsFrom(b, u, backstep, s)
    ensures r == s
  {
    SameLatestMinor(a, b, t, u);
    SelectionOfMinorIgnoresOrder(a, b, t.minor - backstep, r, s);
  }

  lemma SameLatestMinor(a: seq<Version>, b: seq<Version>, t: Version, u: Version)
    requires forall v :: v in a <==> v in b
    requires HasLatestMinor(a, t) && HasLatestMinor(b, u)
    ensures t.minor == u.minor
  {
  }

  lemma SelectionOfMinorIgnoresOrder(a: seq<Version>, b: seq<Version>, m: int, r: Result<string, Error>,
                                     s: Result<string, Error>)
    requires forall v :: v in a <==> v in b
    requires SelectsMinor(a, m, r) && SelectsMinor(b, m, s)
    ensures r == s
  {
    if r.Ok? && s.Ok? {
      var v :| IsLatestOfMinor(a, v, m) && Printable(v) && r.value == Print(v);
      var w :| IsLatestOfMinor(b, w, m) && Printable(w) && s.value == Print(w);
      assert v == w;
    }
  }
}
