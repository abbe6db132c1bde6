/**
 * `extractIPs` of static/js/main.js: every match of the global regular
 * expression `\b\d{1,3}\.\d{1,3}\.\d{1,3}\.\d{1,3}\b` in a message, in the
 * order the regular-expression engine finds them, with repeats removed
 * (`[...new Set(matches)]`).
 *
 * The regular expression is replaced by a scanner over characters. At a
 * position p the engine succeeds exactly when p starts a word (p is 0 or
 * the character before p is not in `\w`) and four maximal runs of one to
 * three digits follow, separated by single dots, with no `\w` character
 * right after the last run: a shorter run than the maximal one is always
 * followed by a digit, which neither `\.` nor `\b` accepts, so
 * backtracking never helps. After a match the search resumes at its end,
 * after a failure at the next position.
 */
module IpExtract {
  import opened Json
  import opened Seqs

  predicate IsDigit(c: char)
  {
    '0' <= c <= '9'
  }

  /** The class `\w` of JavaScript regular expressions: `[A-Za-z0-9_]`. */
  predicate IsWordChar(c: char)
  {
    IsDigit(c) || 'a' <= c <= 'z' || 'A' <= c <= 'Z' || c == '_'
  }

  // ---------------------------------------------------------------------
  // The reference shape of an address: independent of the scanner.

  /** `s.split('.')`. */
  function Split(s: string): (parts: seq<string>)
    ensures |parts| >= 1
    decreases |s|
  {
    if s == [] then [""]
    else
      var rest := Split(s[1..]);
      if s[0] == '.' then [""] + rest else [[s[0]] + rest[0]] + rest[1..]
  }

  predicate IsDigitGroup(g: string)
  {
    1 <= |g| <= 3 && forall c :: c in g ==> IsDigit(c)
  }

  predicate AllDigitGroups(parts: seq<string>)
  {
    forall i :: 0 <= i < |parts| ==> IsDigitGroup(parts[i])
  }

  /** Four groups of one to three decimal digits joined by dots. Groups above 255 are allowed. */
  predicate IsDottedQuad(s: string)
  {
    var parts := Split(s);
    |parts| == 4 && AllDigitGroups(parts)
  }

  /** `m` occurs in `t` at `q`, with a word boundary on each side. */
  predicate BoundedAt(t: string, m: string, q: nat)
  {
    && q + |m| <= |t|
    && t[q..q + |m|] == m
    && (q == 0 || !IsWordChar(t[q - 1]))
    && (q + |m| == |t| || !IsWordChar(t[q + |m|]))
  }

  lemma {:induction false} SplitNoDot(g: string)
    requires '.' !in g
    ensures Split(g) == [g]
    decreases |g|
  {
    if g != [] {
      assert '.' !in g[1..] by {
        forall c | c in g[1..] ensures c != '.' { assert c in g; }
      }
      SplitNoDot(g[1..]);
      assert g == [g[0]] + g[1..];
    }
  }

  lemma {:induction false} SplitAtDot(g: string, r: string)
    requires '.' !in g
    ensures Split(g + "." + r) == [g] + Split(r)
    decreases |g|
  {
    if g == [] {
      assert g + "." + r == "." + r;
      assert ("." + r)[1..] == r;
    } else {
      SplitAtDot(g[1..], r);
      assert (g + "." + r)[1..] == g[1..] + "." + r;
      assert [g[0]] + g[1..] == g;
    }
  }

  /** The first piece of a split is the text before the first dot. */
  lemma {:induction false} SplitFirst(s: string)
    ensures var parts := Split(s);
      && |parts[0]| <= |s| && s[..|parts[0]|] == parts[0] && '.' !in parts[0]
      && (|parts| == 1 ==> parts[0] == s)
      && (|parts| > 1 ==> |parts[0]| < |s| && s[|parts[0]|] == '.'
                          && Split(s[|parts[0]| + 1..]) == parts[1..])
    decreases |s|
  {
    if s != [] {
      SplitFirst(s[1..]);
      var rest := Split(s[1..]);
      if s[0] != '.' {
        assert s[1..][..|rest[0]|] == rest[0];
        assert s[..|rest[0]| + 1] == [s[0]] + rest[0];
        if |rest| > 1 {
          assert s[1..][|rest[0]| + 1..] == s[|rest[0]| + 2..];
        }
      }
    }
  }

  // ---------------------------------------------------------------------
  // The scanner.

  /** Length of the run of decimal digits in `t` that starts at `p`. */
  function DigitRun(t: string, p: nat): (n: nat)
    requires p <= |t|
    ensures p + n <= |t|
    decreases |t| - p
  {
    if p < |t| && IsDigit(t[p]) then 1 + DigitRun(t, p + 1) else 0
  }

  /** The run is maximal: digits only, followed by the end of the text or a non-digit. */
  lemma {:induction false} DigitRunSpec(t: string, p: nat)
    requires p <= |t|
    ensures forall i :: p <= i < p + DigitRun(t, p) ==> IsDigit(t[i])
    ensures p + DigitRun(t, p) == |t| || !IsDigit(t[p + DigitRun(t, p)])
    decreases |t| - p
  {
    if p < |t| && IsDigit(t[p]) {
      DigitRunSpec(t, p + 1);
    }
  }

  lemma {:induction false} DigitRunExact(t: string, p: nat, k: nat)
    requires p + k <= |t|
    requires forall i :: p <= i < p + k ==> IsDigit(t[i])
    requires p + k == |t| || !IsDigit(t[p + k])
    ensures DigitRun(t, p) == k
    decreases k
  {
    if k > 0 {
      DigitRunExact(t, p + 1, k - 1);
    }
  }

  /**
   * End of `groups` dot-separated groups starting at `p`, each a whole run
   * of one to three digits, or None when `\d{1,3}(\.\d{1,3})*` cannot match there.
   */
  function GroupsEnd(t: string, p: nat, groups: nat): (e: Option<nat>)
    requires p <= |t| && groups >= 1
    ensures e.Some? ==> p < e.value <= |t|
    decreases groups
  {
    var k := DigitRun(t, p);
    if k < 1 || k > 3 then None
    else if groups == 1 then Some(p + k)
    else if p + k < |t| && t[p + k] == '.' then GroupsEnd(t, p + k + 1, groups - 1)
    else None
  }

  /** End of the match of the address pattern that starts at `p`, if any. */
  function MatchAt(t: string, p: nat): Option<nat>
    requires p <= |t|
  {
    if p > 0 && IsWordChar(t[p - 1]) then None
    else match GroupsEnd(t, p, 4)
      case None => None
      case Some(e) => if e == |t| || !IsWordChar(t[e]) then Some(e) else None
  }

  /** `t.match(re)` for the global regular expression, searching from `p`; `|| []` for no match. */
  function Scan(t: string, p: nat): seq<string>
    requires p <= |t|
    decreases |t| - p
  {
    if p == |t| then []
    else match MatchAt(t, p)
      case Some(e) => [t[p..e]] + Scan(t, e)
      case None => Scan(t, p + 1)
  }

  lemma GroupsEndUnfold(t: string, p: nat, n: nat, e: nat)
    requires p <= |t| && n >= 1 && GroupsEnd(t, p, n) == Some(e)
    ensures var k := DigitRun(t, p);
      && 1 <= k <= 3
      && (n == 1 ==> e == p + k)
      && (n > 1 ==> p + k < |t| && t[p + k] == '.' && GroupsEnd(t, p + k + 1, n - 1) == Some(e))
  {
  }

  lemma GroupThenDot(whole: string, g: string, rest: string, m: nat)
    requires whole == g + "." + rest
    requires IsDigitGroup(g) && |Split(rest)| == m && AllDigitGroups(Split(rest))
    ensures |Split(whole)| == m + 1
    ensures AllDigitGroups(Split(whole))
  {
    assert !IsDigit('.');
    SplitAtDot(g, rest);
    var parts := Split(whole);
    forall i | 0 <= i < |parts| ensures IsDigitGroup(parts[i]) {
      if i > 0 { assert parts[i] == Split(rest)[i - 1]; }
    }
  }

  lemma {:induction false} GroupsSplit(t: string, p: nat, n: nat, e: nat)
    requires p <= |t| && n >= 1 && GroupsEnd(t, p, n) == Some(e)
    ensures |Split(t[p..e])| == n
    ensures AllDigitGroups(Split(t[p..e]))
    decreases n
  {
    GroupsEndUnfold(t, p, n, e);
    var k := DigitRun(t, p);
    RunIsGroup(t, p, k);
    if n == 1 {
      var g := t[p..p + k];
      assert !IsDigit('.');
      SplitNoDot(g);
      assert Split(t[p..e]) == [g];
    } else {
      GroupsSplit(t, p + k + 1, n - 1, e);
      GroupDotGroups(t, p, k, e, n - 1);
    }
  }

  lemma RunIsGroup(t: string, p: nat, k: nat)
    requires p <= |t| && DigitRun(t, p) == k && 1 <= k <= 3
    ensures IsDigitGroup(t[p..p + k])
  {
    DigitRunSpec(t, p);
  }

  lemma GroupDotGroups(t: string, p: nat, k: nat, e: nat, m: nat)
    requires p + k < e <= |t| && IsDigitGroup(t[p..p + k]) && t[p + k] == '.'
    requires |Split(t[p + k + 1..e])| == m && AllDigitGroups(Split(t[p + k + 1..e]))
    ensures |Split(t[p..e])| == m + 1 && AllDigitGroups(Split(t[p..e]))
  {
    assert t[p..e] == t[p..p + k] + "." + t[p + k + 1..e];
    GroupThenDot(t[p..e], t[p..p + k], t[p + k + 1..e], m);
  }

  lemma GroupsStep(t: string, p: nat, n: nat, k: nat)
    requires p + k < |t| && n >= 2 && 1 <= k <= 3
    requires DigitRun(t, p) == k && t[p + k] == '.'
    ensures GroupsEnd(t, p, n) == GroupsEnd(t, p + k + 1, n - 1)
  {
  }

  /** What the first piece of a split of `t[p..e]` into digit groups says about `t` itself. */
  lemma FirstGroup(t: string, p: nat, e: nat, n: nat)
    requires p <= e <= |t| && n >= 1
    requires |Split(t[p..e])| == n
    requires AllDigitGroups(Split(t[p..e]))
    requires e == |t| || !IsDigit(t[e])
    ensures var k := |Split(t[p..e])[0]|;
      && 1 <= k <= 3 && DigitRun(t, p) == k
      && (n == 1 ==> p + k == e)
      && (n > 1 ==> && p + k < e && t[p + k] == '.'
                    && |Split(t[p + k + 1..e])| == n - 1
                    && AllDigitGroups(Split(t[p + k + 1..e])))
  {
    var u := t[p..e];
    var parts := Split(u);
    var g := parts[0];
    SplitFirst(u);
    assert IsDigitGroup(g);
    GroupDigits(t, p, e, g);
    if n == 1 {
      DigitRunExact(t, p, |g|);
    } else {
      assert t[p + |g|] == u[|g|];
      DigitRunExact(t, p, |g|);
      RestGroups(t, p, e, |g|, parts);
    }
  }

  lemma GroupDigits(t: string, p: nat, e: nat, g: string)
    requires p <= e <= |t| && |g| <= e - p && t[p..e][..|g|] == g && IsDigitGroup(g)
    ensures forall i :: p <= i < p + |g| ==> IsDigit(t[i])
  {
    forall i | p <= i < p + |g| ensures IsDigit(t[i]) {
      assert t[i] == t[p..e][..|g|][i - p];
      assert g[i - p] in g;
    }
  }

  lemma RestGroups(t: string, p: nat, e: nat, k: nat, parts: seq<string>)
    requires p + k < e <= |t| && |parts| >= 2 && AllDigitGroups(parts)
    requires Split(t[p..e][k + 1..]) == parts[1..]
    ensures |Split(t[p + k + 1..e])| == |parts| - 1 && AllDigitGroups(Split(t[p + k + 1..e]))
  {
    assert t[p..e][k + 1..] == t[p + k + 1..e];
    var v := parts[1..];
    forall i | 0 <= i < |v| ensures IsDigitGroup(v[i]) {
      assert v[i] == parts[i + 1];
    }
  }

  /**
   * `n` dot-separated digit groups that fill `t[p..e]`, followed by the end
   * of the text or a non-digit, are matched from `p` up to `e`.
   */
  lemma {:induction false} GroupsFromSplit(t: string, p: nat, e: nat, n: nat)
    requires p <= e <= |t| && n >= 1
    requires |Split(t[p..e])| == n
    requires AllDigitGroups(Split(t[p..e]))
    requires e == |t| || !IsDigit(t[e])
    ensures GroupsEnd(t, p, n) == Some(e)
    decreases n
  {
    FirstGroup(t, p, e, n);
    var k := |Split(t[p..e])[0]|;
    if n > 1 {
      GroupsFromSplit(t, p + k + 1, e, n - 1);
      GroupsStep(t, p, n, k);
    }
  }

  /** A match consists of digits and dots only. */
  lemma {:induction false} GroupsEndChars(t: string, p: nat, n: nat, e: nat)
    requires p <= |t| && n >= 1 && GroupsEnd(t, p, n) == Some(e)
    ensures forall i :: p <= i < e ==> IsDigit(t[i]) || t[i] == '.'
    decreases n
  {
    GroupsEndUnfold(t, p, n, e);
    DigitRunSpec(t, p);
    if n > 1 {
      var k := DigitRun(t, p);
      GroupsEndChars(t, p + k + 1, n - 1, e);
    }
  }

  /** The pattern matches at `q` wherever a dotted quad occurs there between word boundaries. */
  lemma MatchAtQuad(t: string, m: string, q: nat)
    requires IsDottedQuad(m) && BoundedAt(t, m, q)
    ensures MatchAt(t, q) == Some(q + |m|)
  {
    assert t[q..q + |m|] == m;
    GroupsFromSplit(t, q, q + |m|, 4);
  }

  /**
   * The scan from `p` reports the match at `q` unless a match it may pick up
   * earlier runs past `q`.
   */
  lemma {:induction false} ScanComplete(t: string, p: nat, q: nat)
    requires p <= q <= |t| && MatchAt(t, q).Some?
    requires forall r :: p <= r < q && MatchAt(t, r).Some? ==> MatchAt(t, r).value <= q
    ensures q < MatchAt(t, q).value <= |t| && t[q..MatchAt(t, q).value] in Scan(t, p)
    decreases q - p
  {
    var e := GroupsEnd(t, q, 4).value;
    if p < q {
      match MatchAt(t, p)
      case Some(d) =>
        ScanComplete(t, d, q);
      case None =>
        ScanComplete(t, p + 1, q);
    }
  }

  /**
   * Every dotted quad that occurs in the text between word boundaries, and
   * is not preceded by a dot, is among the extracted addresses.
   */
  lemma AddressFound(t: string, m: string, q: nat)
    requires IsDottedQuad(m) && BoundedAt(t, m, q)
    requires q == 0 || t[q - 1] != '.'
    ensures m in ExtractIps(t)
  {
    MatchAtQuad(t, m, q);
    forall r | 0 <= r < q && MatchAt(t, r).Some? ensures MatchAt(t, r).value <= q {
      GroupsEndChars(t, r, 4, GroupsEnd(t, r, 4).value);
    }
    ScanComplete(t, 0, q);
    assert t[q..q + |m|] == m;
    ExtractIpsSpec(t);
  }

  lemma {:induction false} ScanSound(t: string, p: nat)
    requires p <= |t|
    ensures forall m :: m in Scan(t, p) ==> IsDottedQuad(m) && exists q :: p <= q && BoundedAt(t, m, q)
    decreases |t| - p
  {
    if p < |t| {
      match MatchAt(t, p)
      case Some(e) =>
        ScanSound(t, e);
        GroupsSplit(t, p, 4, e);
        assert BoundedAt(t, t[p..e], p);
      case None =>
        ScanSound(t, p + 1);
    }
  }

  /** extractIPs(text). */
  function ExtractIps(text: string): seq<string>
  {
    Dedup(Scan(text, 0))
  }

  /**
   * The addresses are the matches of the scan, each once, in the order of
   * their first match; each is a dotted quad found in the text between word
   * boundaries.
   */
  lemma ExtractIpsSpec(text: string)
    ensures var ips := ExtractIps(text);
      && NoDuplicates(ips)
      && (forall m :: m in ips <==> m in Scan(text, 0))
      && (forall i, j :: 0 <= i < j < |ips| ==>
            FirstIndex(Scan(text, 0), ips[i]) < FirstIndex(Scan(text, 0), ips[j]))
      && (forall ip :: ip in ips ==> IsDottedQuad(ip) && exists q :: BoundedAt(text, ip, q))
  {
    ScanSound(text, 0);
    DedupSpec(Scan(text, 0));
  }

  /** A message that is exactly one address yields exactly that address. */
  lemma WholeAddressExtracted(s: string)
    requires IsDottedQuad(s)
    ensures ExtractIps(s) == [s]
  {
    assert s[0..|s|] == s;
    GroupsFromSplit(s, 0, |s|, 4);
    assert MatchAt(s, 0) == Some(|s|);
    assert Scan(s, 0) == [s[0..|s|]] + Scan(s, |s|);
    assert s[0..|s|] == s;
    assert Dedup([s]) == Dedup([s][..0]) + [s];
  }

  /** Any four digit groups joined by dots, groups above 255 included, are extracted as one address. */
  lemma FourGroupsExtracted(a: string, b: string, c: string, d: string)
    requires IsDigitGroup(a) && IsDigitGroup(b) && IsDigitGroup(c) && IsDigitGroup(d)
    ensures ExtractIps(a + "." + b + "." + c + "." + d) == [a + "." + b + "." + c + "." + d]
  {
    forall g | IsDigitGroup(g) ensures '.' !in g {
      assert !IsDigit('.');
    }
    var cd := c + "." + d;
    var bcd := b + "." + cd;
    var s := a + "." + bcd;
    assert s == a + "." + b + "." + c + "." + d;
    SplitNoDot(d);
    SplitAtDot(c, d);
    SplitAtDot(b, cd);
    SplitAtDot(a, bcd);
    assert Split(s) == [a, b, c, d];
    WholeAddressExtracted(s);
  }

  /** Groups above 255 are not rejected: "999.999.999.999" is extracted as an address. */
  lemma OutOfRangeAccepted(g: string)
    requires g == "999"
    ensures var s := g + "." + g + "." + g + "." + g; ExtractIps(s) == [s]
  {
    assert IsDigitGroup(g);
    FourGroupsExtracted(g, g, g, g);
  }
}
