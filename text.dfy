/** The JavaScript string operations the core relies on, over `seq<char>`:
    decimal rendering of a number in a template string, `parseInt`,
    `indexOf` / `includes` / `replace` with a string pattern, and `toLowerCase`. */
module Text {
  import opened Common

  predicate IsDigit(c: char) { '0' <= c <= '9' }

  predicate AllDigits(s: string) { forall i :: 0 <= i < |s| ==> IsDigit(s[i]) }

  function DigitChar(d: nat): (c: char)
    requires d < 10
    ensures IsDigit(c)
  {
    ((d + '0' as int) as char)
  }

  function DigitValue(c: char): (d: nat)
    requires IsDigit(c)
    ensures d < 10
  {
    (c as int) - ('0' as int)
  }

  /** Decimal text of a non-negative integer, as `${n}` renders it: no sign, no leading zero. */
  function NatToString(n: nat): (r: string)
    ensures |r| >= 1 && AllDigits(r)
    ensures r[0] != '0' || n == 0
  {
    if n < 10 then [DigitChar(n)] else NatToString(n / 10) + [DigitChar(n % 10)]
  }

  /** The value of a run of decimal digits, most significant first. */
  function DigitsValue(ds: string): nat
    requires AllDigits(ds)
  {
    if ds == [] then 0 else DigitsValue(ds[..|ds| - 1]) * 10 + DigitValue(ds[|ds| - 1])
  }

  /** The longest prefix of `s` made of digits. */
  function LeadingDigits(s: string): (r: string)
    ensures |r| <= |s| && r == s[..|r|] && AllDigits(r)
    ensures |r| < |s| ==> !IsDigit(s[|r|])
  {
    if s == [] || !IsDigit(s[0]) then [] else [s[0]] + LeadingDigits(s[1..])
  }

  /** The white space `parseInt` skips before the number (the ASCII part of it). */
  predicate IsSpace(c: char) { c == ' ' || c == '\t' || c == '\n' || c == '\r' }

  function TrimStart(s: string): (r: string)
    ensures |r| <= |s| && r == s[|s| - |r|..]
    ensures r != [] ==> !IsSpace(r[0])
  {
    if s != [] && IsSpace(s[0]) then TrimStart(s[1..]) else s
  }

  /** `parseInt(s)` in base ten: leading white space skipped, an optional sign,
      then the longest run of digits; `NaN` (here `None`) when there is no digit. */
  function ParseInt(s: string): (r: Option<int>)
    ensures r.Some? ==> exists k :: 0 <= k <= |s| && LeadingDigits(s[k..]) != []
  {
    var t := TrimStart(s);
    var negative := t != [] && t[0] == '-';
    var body := if t != [] && (t[0] == '-' || t[0] == '+') then t[1..] else t;
    var ds := LeadingDigits(body);
    if ds == [] then None
    else
      assert body == s[|s| - |body|..];
      var v: int := DigitsValue(ds);
      Some(if negative then -v else v)
  }

  lemma {:induction false} DigitsValueOfNatToString(n: nat)
    ensures DigitsValue(NatToString(n)) == n
  {
    var r := NatToString(n);
    if n < 10 {
      assert r[..|r| - 1] == [];
    } else {
      DigitsValueOfNatToString(n / 10);
      assert r[..|r| - 1] == NatToString(n / 10);
    }
  }

  lemma {:induction false} LeadingDigitsOfDigits(ds: string, rest: string)
    requires AllDigits(ds)
    requires rest == [] || !IsDigit(rest[0])
    ensures LeadingDigits(ds + rest) == ds
  {
    if ds == [] {
      assert ds + rest == rest;
    } else {
      assert (ds + rest)[1..] == ds[1..] + rest;
      LeadingDigitsOfDigits(ds[1..], rest);
    }
  }

  /** Round trip: parsing the decimal text of `n`, followed by anything that
      does not continue the number, gives back `n`. */
  lemma ParseIntOfNatToString(n: nat, rest: string)
    requires rest == [] || !IsDigit(rest[0])
    ensures ParseInt(NatToString(n) + rest) == Some(n)
  {
    var s := NatToString(n) + rest;
    assert TrimStart(s) == s;
    LeadingDigitsOfDigits(NatToString(n), rest);
    DigitsValueOfNatToString(n);
  }

  /** `s.indexOf(pat, i)`: the first position at or after `i` where `pat` occurs. */
  function IndexOfFrom(s: string, pat: string, i: nat): (r: Option<nat>)
    requires i <= |s|
    ensures r.Some? ==> i <= r.value && r.value + |pat| <= |s| && s[r.value..r.value + |pat|] == pat
    decreases |s| - i
  {
    if i + |pat| > |s| then None
    else if s[i..i + |pat|] == pat then Some(i)
    else if i == |s| then None
    else IndexOfFrom(s, pat, i + 1)
  }

  function IndexOf(s: string, pat: string): Option<nat> { IndexOfFrom(s, pat, 0) }

  /** `s.includes(pat)`. */
  predicate Includes(s: string, pat: string) { IndexOf(s, pat).Some? }

  /** `s.replace(pat, rep)` with a string pattern: only the first occurrence is replaced. */
  function ReplaceFirst(s: string, pat: string, rep: string): (r: string)
    ensures IndexOf(s, pat).None? ==> r == s
  {
    match IndexOf(s, pat)
    case None => s
    case Some(j) => s[..j] + rep + s[j + |pat|..]
  }

  /** When the first character of `pat` does not occur from `i` on, `pat` is not found. */
  lemma {:induction false} IndexOfFromAbsent(s: string, pat: string, i: nat)
    requires i <= |s| && |pat| >= 1
    requires forall k :: i <= k < |s| ==> s[k] != pat[0]
    ensures IndexOfFrom(s, pat, i) == None
    decreases |s| - i
  {
    if i + |pat| <= |s| {
      assert s[i..i + |pat|][0] == s[i];
      IndexOfFromAbsent(s, pat, i + 1);
    }
  }

  /** `pat` occurs at `j`, and its first character occurs nowhere in `[i, j)`:
      the search from `i` stops at `j`. */
  lemma {:induction false} IndexOfFromAt(s: string, pat: string, i: nat, j: nat)
    requires i <= j && j + |pat| <= |s| && |pat| >= 1
    requires s[j..j + |pat|] == pat
    requires forall k :: i <= k < j ==> s[k] != pat[0]
    ensures IndexOfFrom(s, pat, i) == Some(j)
    decreases j - i
  {
    if i < j {
      assert s[i..i + |pat|][0] == s[i];
      IndexOfFromAt(s, pat, i + 1, j);
    }
  }

  /** Replacing the first occurrence when it is known to start at `j`. */
  lemma ReplaceFirstAt(s: string, pat: string, rep: string, j: nat)
    requires j + |pat| <= |s| && |pat| >= 1
    requires s[j..j + |pat|] == pat
    requires forall k :: 0 <= k < j ==> s[k] != pat[0]
    ensures ReplaceFirst(s, pat, rep) == s[..j] + rep + s[j + |pat|..]
  {
    IndexOfFromAt(s, pat, 0, j);
  }

  /** ASCII `toLowerCase` of one character. */
  function LowerChar(c: char): (d: char)
    ensures 'A' <= c <= 'Z' ==> 'a' <= d <= 'z'
    ensures !('A' <= c <= 'Z') ==> d == c
  {
    if 'A' <= c <= 'Z' then (c as int + 32) as char else c
  }

  /** `s.toLowerCase()` over ASCII letters. */
  function ToLower(s: string): (r: string)
    ensures |r| == |s|
    ensures forall i :: 0 <= i < |s| ==> r[i] == LowerChar(s[i])
  {
    if s == [] then [] else [LowerChar(s[0])] + ToLower(s[1..])
  }

  /** Lower-casing is idempotent, so a stored (lower-cased) address is its own key. */
  lemma ToLowerIdempotent(s: string)
    ensures ToLower(ToLower(s)) == ToLower(s)
  {
    assert forall i :: 0 <= i < |s| ==> LowerChar(LowerChar(s[i])) == LowerChar(s[i]);
  }
}
