/**
 * The JavaScript string operations the labs rely on: `indexOf`, `replace` with a
 * string pattern (first occurrence only, with the `$` substitution patterns of
 * GetSubstitution), `Array.prototype.join` and `Number.prototype.toString` on
 * non-negative integers.
 */
module JsString {
  import opened Wrappers

  /** JavaScript truthiness of an optional string (`undefined` is `None`): present and not "". */
  predicate Truthy(s: Option<string>) {
    s.Some? && s.value != ""
  }

  /** `pat` occurs in `s` starting at index `i`. */
  predicate MatchAt(s: string, pat: string, i: nat) {
    i + |pat| <= |s| && s[i..i + |pat|] == pat
  }

  /** `pat` occurs nowhere in `s`. */
  predicate Absent(s: string, pat: string) {
    forall i: nat | i <= |s| :: !MatchAt(s, pat, i)
  }

  /** `s` ends with `t`. */
  predicate EndsWith(s: string, t: string) {
    |t| <= |s| && s[|s| - |t|..] == t
  }

  /** The first index at or after `from` where `pat` occurs in `s`. */
  function IndexFrom(s: string, pat: string, from: nat): (r: Option<nat>)
    ensures r.Some? ==> from <= r.value && MatchAt(s, pat, r.value)
    ensures r.Some? ==> forall j: nat :: from <= j < r.value ==> !MatchAt(s, pat, j)
    ensures r.None? ==> forall j: nat :: from <= j ==> !MatchAt(s, pat, j)
    decreases |s| - from
  {
    if from + |pat| > |s| then None
    else if s[from..from + |pat|] == pat then Some(from)
    else IndexFrom(s, pat, from + 1)
  }

  /** `s.indexOf(pat)`, with `None` for -1. */
  function IndexOf(s: string, pat: string): (r: Option<nat>)
    ensures r.Some? <==> !Absent(s, pat)
    ensures r.Some? ==> MatchAt(s, pat, r.value) && forall j: nat :: j < r.value ==> !MatchAt(s, pat, j)
  {
    IndexFrom(s, pat, 0)
  }

  /**
   * Expansion of a replacement string when the pattern is a plain string (so there
   * are no capture groups): `$$` gives `$`, `$&` the matched text, `` $` `` the text
   * before the match, `$'` the text after it; every other `$` is literal.
   */
  function Substitute(rep: string, matched: string, before: string, after: string): (r: string)
    ensures '$' !in rep ==> r == rep
    decreases |rep|
  {
    if |rep| >= 2 && rep[0] == '$' && rep[1] == '$' then
      "$" + Substitute(rep[2..], matched, before, after)
    else if |rep| >= 2 && rep[0] == '$' && rep[1] == '&' then
      matched + Substitute(rep[2..], matched, before, after)
    else if |rep| >= 2 && rep[0] == '$' && rep[1] == '`' then
      before + Substitute(rep[2..], matched, before, after)
    else if |rep| >= 2 && rep[0] == '$' && rep[1] == '\'' then
      after + Substitute(rep[2..], matched, before, after)
    else if rep == [] then
      []
    else
      [rep[0]] + Substitute(rep[1..], matched, before, after)
  }

  /** `s.replace(pat, rep)`: only the first occurrence of `pat` is replaced. */
  function Replace(s: string, pat: string, rep: string): (r: string)
    ensures Absent(s, pat) ==> r == s
  {
    match IndexOf(s, pat)
    case None => s
    case Some(p) => s[..p] + Substitute(rep, pat, s[..p], s[p + |pat|..]) + s[p + |pat|..]
  }

  /** When the first occurrence of `pat` is at `p`, `replace` splices there. */
  lemma ReplaceAt(s: string, pat: string, rep: string, p: nat)
    requires MatchAt(s, pat, p)
    requires forall j: nat :: j < p ==> !MatchAt(s, pat, j)
    ensures Replace(s, pat, rep) == s[..p] + Substitute(rep, pat, s[..p], s[p + |pat|..]) + s[p + |pat|..]
  {
    var r := IndexOf(s, pat);
    assert r.Some?;
    assert r.value == p;
  }

  /**
   * If no occurrence of `pat` starts inside `a` (not even one running on into the
   * `pat` that follows it), replacing in `a + pat + b` splices the expanded
   * replacement between `a` and `b`.
   */
  lemma ReplaceSplice(a: string, pat: string, b: string, rep: string)
    requires pat != []
    requires Absent(a + pat[..|pat| - 1], pat)
    ensures Replace(a + pat + b, pat, rep) == a + Substitute(rep, pat, a, b) + b
  {
    var s := a + pat + b;
    var t := a + pat[..|pat| - 1];
    assert s[|a|..|a| + |pat|] == pat;
    assert MatchAt(s, pat, |a|);
    forall j: nat | j < |a|
      ensures !MatchAt(s, pat, j)
    {
      assert !MatchAt(t, pat, j);
      assert s[j..j + |pat|] == t[j..j + |pat|];
    }
    ReplaceAt(s, pat, rep, |a|);
    assert s[..|a|] == a;
    assert s[|a| + |pat|..] == b;
  }

  /** The same splice when the replacement holds no `$` pattern: it goes in verbatim. */
  lemma ReplaceFirst(a: string, pat: string, b: string, rep: string)
    requires pat != []
    requires Absent(a + pat[..|pat| - 1], pat)
    requires '$' !in rep
    ensures Replace(a + pat + b, pat, rep) == a + rep + b
  {
    ReplaceSplice(a, pat, b, rep);
  }

  /** `s` ends with `x + pat + t`: so `pat` occurs just before the final `t`. */
  lemma EndsWithSplit(s: string, x: string, pat: string, t: string)
    requires EndsWith(s, x + pat + t)
    ensures MatchAt(s, pat, |s| - |t| - |pat|) && EndsWith(s, t)
  {
    var u := x + pat + t;
    var k := |s| - |u|;
    assert s[k..] == u;
    assert s[|s| - |t| - |pat|..|s| - |t|] == u[|x|..|x| + |pat|] == pat;
    assert s[|s| - |t|..] == u[|x| + |pat|..] == t;
  }

  /** Replacing an occurrence of `pat` that lies before a suffix `t` leaves `t` in place. */
  lemma ReplaceKeepsSuffix(s: string, pat: string, rep: string, k: nat, t: string)
    requires MatchAt(s, pat, k) && k + |pat| + |t| <= |s| && EndsWith(s, t)
    ensures EndsWith(Replace(s, pat, rep), t)
  {
    assert !Absent(s, pat);
    var p := IndexOf(s, pat).value;
    var tail := s[p + |pat|..];
    SuffixOfTail(s, p + |pat|, t);
    EndsWithAppend(s[..p] + Substitute(rep, pat, s[..p], tail), tail, t);
  }

  /** When `s` ends with `x + pat + t`, replacing `pat` in `s` leaves the final `t` in place. */
  lemma KeepTailAfter(s: string, x: string, pat: string, t: string, rep: string)
    requires EndsWith(s, x + pat + t)
    ensures EndsWith(Replace(s, pat, rep), t)
  {
    EndsWithSplit(s, x, pat, t);
    ReplaceKeepsSuffix(s, pat, rep, |s| - |t| - |pat|, t);
  }

  /** A suffix `t` that starts at or after `i` is a suffix of `s[i..]`. */
  lemma SuffixOfTail(s: string, i: nat, t: string)
    requires i + |t| <= |s| && EndsWith(s, t)
    ensures EndsWith(s[i..], t)
  {
    assert s[i..][|s| - i - |t|..] == s[|s| - |t|..];
  }

  /** Putting text in front keeps a suffix. */
  lemma EndsWithAppend(x: string, y: string, t: string)
    requires EndsWith(y, t)
    ensures EndsWith(x + y, t)
  {
    assert (x + y)[|x + y| - |t|..] == y[|y| - |t|..];
  }

  /** A string without the first character of `pat` cannot start an occurrence of it. */
  lemma LeadAbsent(a: string, pat: string)
    requires pat != [] && pat[0] !in a
    ensures Absent(a + pat[..|pat| - 1], pat)
  {
    var t := a + pat[..|pat| - 1];
    forall i: nat | i <= |t|
      ensures !MatchAt(t, pat, i)
    {
      if i < |a| && i + |pat| <= |t| {
        assert t[i..i + |pat|][0] == a[i];
      }
    }
  }

  /** `replace` with a pattern whose first character is not in `a`. */
  lemma ReplaceFirstLead(a: string, pat: string, b: string, rep: string)
    requires pat != [] && pat[0] !in a && '$' !in rep
    ensures Replace(a + pat + b, pat, rep) == a + rep + b
  {
    LeadAbsent(a, pat);
    ReplaceFirst(a, pat, b, rep);
  }

  /** Regrouping a concatenation so that a pattern `z` stands between two parts. */
  lemma Regroup(x: string, y: string, z: string, w: string)
    ensures x + (y + z + w) == (x + y) + z + w
  {
  }

  /** Regrouping a concatenation around a pattern `z` that stands inside its second part. */
  lemma RegroupAround(x: string, y: string, z: string, w: string, v: string)
    ensures x + (y + z + w) + v == (x + y) + z + (w + v)
  {
  }

  /** A string built as `a + m + b` starts with `a` and ends with `b`. */
  lemma Framed(a: string, m: string, b: string)
    ensures (a + m + b)[..|a|] == a && EndsWith(a + m + b, b)
  {
    var s := a + m + b;
    assert s[|s| - |b|..] == b;
  }

  /** A two-character pattern is absent from `x + y` unless it is in one part or straddles them. */
  lemma AbsentConcat2(x: string, y: string, pat: string)
    requires |pat| == 2 && Absent(x, pat) && Absent(y, pat)
    requires !(|x| > 0 && |y| > 0 && x[|x| - 1] == pat[0] && y[0] == pat[1])
    ensures Absent(x + y, pat)
  {
    var s := x + y;
    forall i: nat | i <= |s|
      ensures !MatchAt(s, pat, i)
    {
      if i + 2 <= |s| {
        if i + 2 <= |x| {
          assert s[i..i + 2] == x[i..i + 2];
          assert !MatchAt(x, pat, i);
        } else if i >= |x| {
          assert s[i..i + 2] == y[i - |x|..i - |x| + 2];
          assert !MatchAt(y, pat, i - |x|);
        } else {
          assert s[i..i + 2][0] == x[|x| - 1] && s[i..i + 2][1] == y[0];
        }
      }
    }
  }

  /** A pattern longer than the string cannot occur in it. */
  lemma AbsentShort(s: string, pat: string)
    requires |s| < |pat|
    ensures Absent(s, pat)
  {
  }

  /** A string without the first character of `pat` does not contain `pat`. */
  lemma AbsentNoLead(s: string, pat: string)
    requires pat != [] && pat[0] !in s
    ensures Absent(s, pat)
  {
    forall i: nat | i <= |s| && i + |pat| <= |s|
      ensures !MatchAt(s, pat, i)
    {
      assert s[i..i + |pat|][0] == s[i];
    }
  }

  /** `arr.join(sep)`. */
  function Join(parts: seq<string>, sep: string): (r: string)
    ensures parts == [] ==> r == ""
    ensures (forall k :: 0 <= k < |parts| ==> '$' !in parts[k]) && '$' !in sep ==> '$' !in r
  {
    if |parts| == 0 then ""
    else if |parts| == 1 then parts[0]
    else parts[0] + sep + Join(parts[1..], sep)
  }

  /** The decimal digit character for `d`. */
  function DigitChar(d: nat): (c: char)
    requires d < 10
    ensures '0' <= c <= '9'
  {
    ('0' as int + d) as char
  }

  /** `n.toString()` for a non-negative integer: its decimal digits, without leading zeros. */
  function NatToString(n: nat): (r: string)
    ensures |r| >= 1
    ensures forall k :: 0 <= k < |r| ==> '0' <= r[k] <= '9'
    ensures r[0] == '0' ==> n == 0
  {
    if n < 10 then [DigitChar(n)] else NatToString(n / 10) + [DigitChar(n % 10)]
  }

  /** The value of a string of decimal digits (`parseInt` on a digit string). */
  function ParseDigits(s: string): nat
    requires forall k :: 0 <= k < |s| ==> '0' <= s[k] <= '9'
  {
    if s == [] then 0 else ParseDigits(s[..|s| - 1]) * 10 + (s[|s| - 1] as int - '0' as int)
  }

  /** Parsing the decimal form of `n` gives `n` back. */
  lemma {:induction false} ParseNatToString(n: nat)
    ensures ParseDigits(NatToString(n)) == n
  {
    if n >= 10 {
      var s := NatToString(n);
      assert s[..|s| - 1] == NatToString(n / 10);
      ParseNatToString(n / 10);
    }
  }

  /** Decimal forms of numbers contain neither `%` nor `$`. */
  lemma NatToStringPlain(n: nat)
    ensures '%' !in NatToString(n) && '$' !in NatToString(n)
  {
    var s := NatToString(n);
    assert forall k :: 0 <= k < |s| ==> s[k] != '%' && s[k] != '$';
  }
}
