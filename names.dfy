/** The public-interface classifier (`_is_public_network_interface`): the
    guard every mutating handler runs first. A name is public iff it fully
    matches one of eleven anchored patterns. */
module Names {
  import opened Text

  /** The three shapes the eleven patterns take. */
  datatype Pattern =
    | DigitRun(prefix: string)               // ^prefix\d+$
    | DigitPair(prefix: string, sep: char)   // ^prefix\d+sep\d+$
    | MacSuffix(prefix: string)              // ^prefix[0-9a-f]{12}$

  /** The patterns in the order the source tries them. */
  const PublicPatterns: seq<Pattern> := [
    DigitRun("eth"), DigitRun("ens"), DigitPair("enp", 's'), DigitRun("eno"),
    MacSuffix("enx"), DigitRun("em"), DigitPair("p", 'p'), DigitRun("wlan"),
    DigitPair("wlp", 's'), DigitRun("wlo"), DigitPair("wwp", 's')
  ]

  predicate IsLowerHex(c: char) {
    IsDigit(c) || ('a' <= c <= 'f')
  }

  /** Length of the run of digits at the start of `s`. */
  function DigitPrefix(s: string): (k: nat)
    ensures k <= |s|
    ensures forall i :: 0 <= i < k ==> IsDigit(s[i])
    ensures k < |s| ==> !IsDigit(s[k])
  {
    if s != [] && IsDigit(s[0]) then 1 + DigitPrefix(s[1..]) else 0
  }

  /** The matcher: the greedy `\d+` of a pattern can only stop at the first
      non-digit, so no backtracking is needed. */
  predicate Matches(p: Pattern, name: string) {
    StartsWith(name, p.prefix) &&
    var rest := name[|p.prefix|..];
    match p
    case DigitRun(_) => AllDigits(rest)
    case DigitPair(_, sep) =>
      var k := DigitPrefix(rest);
      0 < k < |rest| && rest[k] == sep && AllDigits(rest[k + 1..])
    case MacSuffix(_) =>
      |rest| == 12 && forall i :: 0 <= i < 12 ==> IsLowerHex(rest[i])
  }

  /** The loop with early return over the patterns. */
  function AnyMatch(ps: seq<Pattern>, name: string): (b: bool)
    ensures b <==> exists i :: 0 <= i < |ps| && Matches(ps[i], name)
  {
    if ps == [] then false
    else if Matches(ps[0], name) then true
    else
      assert forall i :: 1 <= i < |ps| ==> ps[i] == ps[1..][i - 1];
      AnyMatch(ps[1..], name)
  }

  predicate IsPublic(name: string) {
    AnyMatch(PublicPatterns, name)
  }

  // ---- The grammars written as regular-expression semantics ----

  /** `^pre\d+$`. */
  ghost predicate DigitsAfter(n: string, pre: string) {
    StartsWith(n, pre) && AllDigits(n[|pre|..])
  }

  /** `^pre\d+sep\d+$`: some split point `k` has digits on both sides. */
  ghost predicate DigitsSepDigits(n: string, pre: string, sep: char) {
    StartsWith(n, pre) &&
    exists k :: |pre| < k < |n| && n[k] == sep && AllDigits(n[|pre|..k]) && AllDigits(n[k + 1..])
  }

  /** `^pre[0-9a-f]{12}$`. */
  ghost predicate MacAfter(n: string, pre: string) {
    StartsWith(n, pre) && |n| == |pre| + 12 &&
    forall i :: |pre| <= i < |n| ==> IsLowerHex(n[i])
  }

  /** The eleven patterns at main.py:88-98. */
  ghost predicate PublicGrammar(n: string) {
    DigitsAfter(n, "eth") || DigitsAfter(n, "ens") || DigitsSepDigits(n, "enp", 's') ||
    DigitsAfter(n, "eno") || MacAfter(n, "enx") || DigitsAfter(n, "em") ||
    DigitsSepDigits(n, "p", 'p') || DigitsAfter(n, "wlan") || DigitsSepDigits(n, "wlp", 's') ||
    DigitsAfter(n, "wlo") || DigitsSepDigits(n, "wwp", 's')
  }

  lemma {:induction false} DigitPrefixStops(s: string, k: nat)
    requires k < |s| && !IsDigit(s[k])
    requires forall i :: 0 <= i < k ==> IsDigit(s[i])
    ensures DigitPrefix(s) == k
  {
    if k > 0 {
      DigitPrefixStops(s[1..], k - 1);
    }
  }

  /** The greedy matcher for `^pre\d+sep\d+$` agrees with the existential
      reading, in both directions, when the separator is not a digit. */
  lemma PairMatches(n: string, pre: string, sep: char)
    requires !IsDigit(sep)
    ensures Matches(DigitPair(pre, sep), n) <==> DigitsSepDigits(n, pre, sep)
  {
    if Matches(DigitPair(pre, sep), n) {
      PairMatchSplits(n, pre, sep);
    }
    if DigitsSepDigits(n, pre, sep) {
      var k :| |pre| < k < |n| && n[k] == sep && AllDigits(n[|pre|..k]) && AllDigits(n[k + 1..]);
      SplitPairMatches(n, pre, sep, k);
    }
  }

  /** The greedy split point witnesses the existential reading. */
  lemma PairMatchSplits(n: string, pre: string, sep: char)
    requires Matches(DigitPair(pre, sep), n)
    ensures DigitsSepDigits(n, pre, sep)
  {
    var rest := n[|pre|..];
    var k := |pre| + DigitPrefix(rest);
    assert n[|pre|..k] == rest[..DigitPrefix(rest)];
    assert n[k + 1..] == rest[DigitPrefix(rest) + 1..];
  }

  /** Any split point with digits on both sides is the greedy one. */
  lemma SplitPairMatches(n: string, pre: string, sep: char, k: int)
    requires !IsDigit(sep) && StartsWith(n, pre)
    requires |pre| < k < |n| && n[k] == sep && AllDigits(n[|pre|..k]) && AllDigits(n[k + 1..])
    ensures Matches(DigitPair(pre, sep), n)
  {
    var rest := n[|pre|..];
    forall i | 0 <= i < k - |pre| ensures IsDigit(rest[i]) {
      assert rest[i] == n[|pre|..k][i];
    }
    DigitPrefixStops(rest, k - |pre|);
    assert rest[k - |pre| + 1..] == n[k + 1..];
  }

  lemma MacMatches(n: string, pre: string)
    ensures Matches(MacSuffix(pre), n) <==> MacAfter(n, pre)
  {
    if StartsWith(n, pre) && Matches(MacSuffix(pre), n) {
      forall i | |pre| <= i < |n| ensures IsLowerHex(n[i]) {
        assert n[i] == n[|pre|..][i - |pre|];
      }
    }
    if MacAfter(n, pre) {
      forall i | 0 <= i < 12 ensures IsLowerHex(n[|pre|..][i]) {
        assert n[|pre|..][i] == n[i + |pre|];
      }
    }
  }

  /** The early-return loop tries the eleven patterns in turn. */
  lemma IsPublicUnrolled(n: string)
    ensures IsPublic(n) <==>
      Matches(PublicPatterns[0], n) || Matches(PublicPatterns[1], n) || Matches(PublicPatterns[2], n) ||
      Matches(PublicPatterns[3], n) || Matches(PublicPatterns[4], n) || Matches(PublicPatterns[5], n) ||
      Matches(PublicPatterns[6], n) || Matches(PublicPatterns[7], n) || Matches(PublicPatterns[8], n) ||
      Matches(PublicPatterns[9], n) || Matches(PublicPatterns[10], n)
  {
    var ps := PublicPatterns;
    if IsPublic(n) {
      var j :| 0 <= j < |ps| && Matches(ps[j], n);
      assert j == 0 || j == 1 || j == 2 || j == 3 || j == 4 || j == 5 || j == 6 || j == 7 || j == 8 || j == 9 || j == 10;
    }
  }

  lemma RunMatches(n: string, pre: string)
    ensures Matches(DigitRun(pre), n) <==> DigitsAfter(n, pre)
  {
  }

  /** The classifier accepts exactly the names that fully match one of the
      eleven grammars. */
  lemma IsPublicIffGrammar(n: string)
    ensures IsPublic(n) <==> PublicGrammar(n)
  {
    IsPublicUnrolled(n);
    RunMatches(n, "eth");
    RunMatches(n, "ens");
    RunMatches(n, "eno");
    RunMatches(n, "em");
    RunMatches(n, "wlan");
    RunMatches(n, "wlo");
    PairMatches(n, "enp", 's');
    PairMatches(n, "p", 'p');
    PairMatches(n, "wlp", 's');
    PairMatches(n, "wwp", 's');
    MacMatches(n, "enx");
  }

  predicate IsAsciiAlnum(c: char) {
    IsDigit(c) || ('a' <= c <= 'z')
  }

  /** What every pattern of the list has in common: a prefix of lower-case
      letters that starts with `e`, `p` or `w`, and a lower-case separator. */
  predicate WellFormed(p: Pattern) {
    && p.prefix != []
    && (p.prefix[0] == 'e' || p.prefix[0] == 'p' || p.prefix[0] == 'w')
    && (forall i :: 0 <= i < |p.prefix| ==> 'a' <= p.prefix[i] <= 'z')
    && (p.DigitPair? ==> 'a' <= p.sep <= 'z')
  }

  lemma PatternsWellFormed()
    ensures forall i :: 0 <= i < |PublicPatterns| ==> WellFormed(PublicPatterns[i])
  {
    forall i | 0 <= i < |PublicPatterns| ensures WellFormed(PublicPatterns[i]) {
      PatternWellFormed(i);
    }
  }

  lemma PatternWellFormed(i: nat)
    requires i < |PublicPatterns|
    ensures WellFormed(PublicPatterns[i])
  {
    var p := PublicPatterns[i];
    var pre := p.prefix;
    assert pre != [] && (pre[0] == 'e' || pre[0] == 'p' || pre[0] == 'w');
    assert forall k :: 0 <= k < |pre| ==> 'a' <= pre[k] <= 'z';
  }

  /** Every public name starts with `e`, `p` or `w` and is made of lower-case
      letters and digits only, so it has no whitespace, dot or regex
      metacharacter. */
  lemma PublicNameShape(n: string)
    requires IsPublic(n)
    ensures n != [] && (n[0] == 'e' || n[0] == 'p' || n[0] == 'w')
    ensures forall i :: 0 <= i < |n| ==> IsAsciiAlnum(n[i])
  {
    var ps := PublicPatterns;
    var j :| 0 <= j < |ps| && Matches(ps[j], n);
    PatternsWellFormed();
    MatchShape(ps[j], n);
  }

  lemma MatchShape(p: Pattern, n: string)
    requires WellFormed(p) && Matches(p, n)
    ensures n != [] && n[0] == p.prefix[0]
    ensures forall i :: 0 <= i < |n| ==> IsAsciiAlnum(n[i])
  {
    var pre := p.prefix;
    assert n[..|pre|] == pre;
    assert n[0] == pre[0];
    var rest := n[|pre|..];
    assert forall i :: 0 <= i < |rest| ==> IsAsciiAlnum(rest[i]) by {
      match p
      case DigitRun(_) =>
      case MacSuffix(_) =>
      case DigitPair(_, sep) =>
        var k := DigitPrefix(rest);
        forall i | k < i < |rest| ensures IsDigit(rest[i]) {
          assert rest[i] == rest[k + 1..][i - k - 1];
        }
    }
    forall i | 0 <= i < |n| ensures IsAsciiAlnum(n[i]) {
      if i < |pre| {
        assert n[i] == pre[i];
      } else {
        assert n[i] == rest[i - |pre|];
      }
    }
  }

  lemma NoMatchAt(p: Pattern, n: string, i: nat)
    requires i < |p.prefix| && i < |n| && n[i] != p.prefix[i]
    ensures !Matches(p, n)
  {
    if |p.prefix| <= |n| {
      assert n[..|p.prefix|][i] != p.prefix[i];
    }
  }

  /** Ordinary Ethernet and wireless names are accepted. */
  lemma AcceptedExamples(a: string, b: string, c: string)
    requires a == "eth0" && b == "enp0s3" && c == "enx001122334455"
    ensures IsPublic(a) && IsPublic(b) && IsPublic(c)
  {
    assert Matches(PublicPatterns[0], a) by { assert a[3..] == "0"; }
    assert Matches(PublicPatterns[2], b) by { PairExample(b); }
    assert Matches(PublicPatterns[4], c) by {
      assert c[3..] == "001122334455";
    }
  }

  lemma PairExample(b: string)
    requires b == "enp0s3"
    ensures Matches(DigitPair("enp", 's'), b)
  {
    var rest := b[3..];
    assert rest == "0s3";
    assert rest[1..] == "s3";
    DigitPrefixStops(rest, 1);
    assert rest[2..] == "3";
  }

  /** Loopback, container, virtual and bridge names are rejected. */
  lemma RejectedExamples()
    ensures !IsPublic("lo") && !IsPublic("docker0") && !IsPublic("veth1234") && !IsPublic("br0")
  {
    if IsPublic("lo") { PublicNameShape("lo"); }
    if IsPublic("docker0") { PublicNameShape("docker0"); }
    if IsPublic("veth1234") { PublicNameShape("veth1234"); }
    if IsPublic("br0") { PublicNameShape("br0"); }
  }

  /** No pattern other than the last has a prefix the name starts with. */
  lemma OnlyWwpPrefix(n: string)
    requires n == "wwp0s20f0u6"
    ensures forall j :: 0 <= j < 10 ==> !Matches(PublicPatterns[j], n)
  {
    forall j | 0 <= j < 10 ensures !Matches(PublicPatterns[j], n) {
      NoMatchAt(PublicPatterns[j], n, if 7 <= j then 1 else 0);
    }
  }

  /** The example the source's comment gives for `^wwp\d+s\d+$` is itself
      rejected: `\d+$` after `s` cannot cover `20f0u6`. */
  lemma CommentedExampleRejected()
    ensures !IsPublic("wwp0s20f0u6")
  {
    var n := "wwp0s20f0u6";
    OnlyWwpPrefix(n);
    var rest := n[3..];
    assert rest == "0s20f0u6";
    assert rest[1..] == "s20f0u6";
    assert DigitPrefix(rest) == 1;
    assert rest[2..][2] == 'f';
    assert !Matches(PublicPatterns[10], n);
  }
}
