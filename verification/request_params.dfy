/** Query-parameter helpers of the top-level application: `_clamp_int`,
    which parses an optional string with Python's `int()` and clamps it, and
    `_pick`, which accepts a value only from an allow-list. */
module RequestParams {
  import opened Outcomes

  /** ASCII characters `int()` skips around its argument: space, tab, line
      feed, carriage return, vertical tab and form feed. */
  predicate IsSpace(c: char)
  {
    c == ' ' || c == '\t' || c == '\n' || c == '\r' || c == '\U{0B}' || c == '\U{0C}'
  }

  predicate IsDigit(c: char)
  {
    '0' <= c <= '9'
  }

  function StripLeft(s: string): (r: string)
    ensures |r| <= |s| && r == s[|s| - |r|..]
    ensures |r| > 0 ==> !IsSpace(r[0])
  {
    if |s| > 0 && IsSpace(s[0]) then StripLeft(s[1..]) else s
  }

  function StripRight(s: string): (r: string)
    ensures |r| <= |s| && r == s[..|r|]
    ensures |r| > 0 ==> !IsSpace(r[|r| - 1])
  {
    if |s| > 0 && IsSpace(s[|s| - 1]) then StripRight(s[..|s| - 1]) else s
  }

  /** Digits, with single underscores allowed only between two digits. */
  predicate DigitGroups(s: string)
  {
    && |s| > 0
    && IsDigit(s[0]) && IsDigit(s[|s| - 1])
    && (forall i :: 0 <= i < |s| ==> IsDigit(s[i]) || s[i] == '_')
    && (forall i :: 0 <= i < |s| - 1 ==> s[i] == '_' ==> IsDigit(s[i + 1]))
  }

  /** Decimal value of a digit string, underscores skipped. */
  function DecimalValue(s: string): nat
  {
    if |s| == 0 then 0
    else if IsDigit(s[|s| - 1]) then DecimalValue(s[..|s| - 1]) * 10 + (s[|s| - 1] as int - '0' as int)
    else DecimalValue(s[..|s| - 1])
  }

  /** `s` without its leading and trailing whitespace. */
  function Strip(s: string): string
  {
    StripRight(StripLeft(s))
  }

  /** `int()` on an already stripped string: an optional sign, then digit
      groups. */
  function ParseSigned(t: string): Option<int>
  {
    if |t| == 0 then None
    else
      var body := if t[0] == '-' || t[0] == '+' then t[1..] else t;
      if !DigitGroups(body) then None
      else
        var v: int := DecimalValue(body);
        Some(if t[0] == '-' then -v else v)
  }

  /** Python's `int(s)` for a base-10 string: surrounding whitespace, an
      optional sign, then digit groups; anything else is a `ValueError`. */
  function ParseInt(s: string): (r: Option<int>)
    ensures Strip(s) == "" ==> r.None?
    ensures r.Some? ==> forall i :: 0 <= i < |Strip(s)| ==>
      IsDigit(Strip(s)[i]) || Strip(s)[i] == '_' || (i == 0 && (Strip(s)[i] == '-' || Strip(s)[i] == '+'))
    ensures r.Some? && r.value < 0 ==> Strip(s)[0] == '-'
  {
    ParseSigned(Strip(s))
  }

  function DigitChar(d: nat): (c: char)
    requires d < 10
    ensures IsDigit(c) && c as int - '0' as int == d
  {
    ('0' as int + d) as char
  }

  /** Python's `str(n)` for a natural number. */
  function ShowNat(n: nat): (s: string)
    ensures |s| > 0
    ensures forall i :: 0 <= i < |s| ==> IsDigit(s[i])
    decreases n
  {
    if n < 10 then [DigitChar(n)] else ShowNat(n / 10) + [DigitChar(n % 10)]
  }

  /** Python's `str(i)`. */
  function ShowInt(i: int): (s: string)
  {
    if i < 0 then "-" + ShowNat(-i) else ShowNat(i)
  }

  lemma {:induction false} DecimalValueOfShowNat(n: nat)
    ensures DecimalValue(ShowNat(n)) == n
    decreases n
  {
    if n >= 10 {
      var s := ShowNat(n);
      DecimalValueOfShowNat(n / 10);
      assert s[..|s| - 1] == ShowNat(n / 10);
    }
  }

  lemma NoSpaceIsKept(s: string)
    requires |s| > 0 && !IsSpace(s[0]) && !IsSpace(s[|s| - 1])
    ensures Strip(s) == s
  {
  }

  lemma ShowNatIsDigitGroups(n: nat)
    ensures DigitGroups(ShowNat(n))
  {
  }

  /** `int(str(i)) == i`: the parser reads back every integer Python prints. */
  lemma ParseShowRoundTrip(i: int)
    ensures ParseInt(ShowInt(i)) == Some(i)
  {
    var s := ShowInt(i);
    NoSpaceIsKept(s);
    ParseSignedShow(i);
  }

  lemma ParseSignedShow(i: int)
    ensures ParseSigned(ShowInt(i)) == Some(i)
  {
    var s := ShowInt(i);
    if i < 0 {
      var digits := ShowNat(-i);
      assert s[1..] == digits;
      ShowNatIsDigitGroups(-i);
      DecimalValueOfShowNat(-i);
    } else {
      ShowNatIsDigitGroups(i);
      DecimalValueOfShowNat(i);
    }
  }

  lemma {:induction false} StripLeftAppend(s: string, c: char)
    requires IsSpace(c)
    ensures StripLeft(s) == [] ==> StripLeft(s + [c]) == []
    ensures StripLeft(s) != [] ==> StripLeft(s + [c]) == StripLeft(s) + [c]
    decreases |s|
  {
    if |s| > 0 && IsSpace(s[0]) {
      assert (s + [c])[1..] == s[1..] + [c];
      StripLeftAppend(s[1..], c);
    } else if |s| == 0 {
      assert (s + [c])[1..] == [];
    }
  }

  /** Leading and trailing whitespace never changes what `int()` reads. */
  lemma ParseIgnoresSurroundingSpace(s: string, c: char)
    requires IsSpace(c)
    ensures ParseInt([c] + s) == ParseInt(s)
    ensures ParseInt(s + [c]) == ParseInt(s)
  {
    assert ([c] + s)[1..] == s;
    StripLeftAppend(s, c);
    var l := StripLeft(s);
    if l != [] {
      assert (l + [c])[..|l + [c]| - 1] == l;
    }
  }

  /** The ASCII separators `\x1c`..`\x1f` are not whitespace to `int()`:
      a parameter that starts with one falls back to the default. */
  lemma {:induction false} SeparatorIsRejected(c: char, s: string, default: int, lo: int, hi: int)
    requires '\U{1C}' <= c <= '\U{1F}'
    ensures ParseInt([c] + s) == None
    ensures ClampInt(Some([c] + s), default, lo, hi) == ClampInt(None, default, lo, hi)
  {
    var t := [c] + s;
    assert t[0] == c;
    LeadingJunkIsRejected(t);
    RejectedIsDefault(t, default, lo, hi);
  }

  /** A string whose first character is neither whitespace, a sign nor a
      digit is not a number. */
  lemma LeadingJunkIsRejected(t: string)
    requires |t| > 0 && !IsSpace(t[0]) && !IsDigit(t[0]) && t[0] != '-' && t[0] != '+'
    ensures ParseInt(t) == None
  {
    assert StripLeft(t) == t;
    var r := StripRight(t);
    if r != [] {
      assert r[0] == t[0];
      assert !DigitGroups(r);
    }
  }

  /** A parameter `int()` rejects clamps exactly like a missing one. */
  lemma RejectedIsDefault(v: string, default: int, lo: int, hi: int)
    requires ParseInt(v).None?
    ensures ClampInt(Some(v), default, lo, hi) == ClampInt(None, default, lo, hi)
  {
    assert Requested(Some(v), default) == Requested(None, default);
  }

  /** The integer `_clamp_int` starts from: the parsed value, or `default`
      when the parameter is absent or `int()` rejects it. */
  function Requested(v: Option<string>, default: int): (x: int)
    ensures v.None? ==> x == default
    ensures v.Some? && ParseInt(v.value).None? ==> x == default
    ensures v.Some? && ParseInt(v.value).Some? ==> x == ParseInt(v.value).value
  {
    if v.None? then default
    else match ParseInt(v.value)
      case Some(k) => k
      case None => default
  }

  /** `_clamp_int(v, default, lo, hi)`: `max(lo, min(hi, x))`. */
  function ClampInt(v: Option<string>, default: int, lo: int, hi: int): (r: int)
    ensures lo <= hi ==> lo <= r <= hi
    ensures lo > hi ==> r == lo
    ensures lo <= Requested(v, default) <= hi ==> r == Requested(v, default)
    ensures Requested(v, default) < lo ==> r == lo
    ensures lo <= hi < Requested(v, default) ==> r == hi
  {
    var x := Requested(v, default);
    var m := if hi <= x then hi else x;
    if lo >= m then lo else m
  }

  /** `_pick(v, allowed, default)`: `v` itself exactly when it is a
      non-empty member of `allowed`. */
  function Pick(v: Option<string>, allowed: seq<string>, default: string): (r: string)
    ensures r == default || (v.Some? && r == v.value && r in allowed)
    ensures (v.Some? && v.value != "" && v.value in allowed) <==> (v.Some? && r == v.value && r != "" && r in allowed)
    ensures !(v.Some? && v.value != "" && v.value in allowed) ==> r == default
  {
    if v.Some? && v.value != "" && v.value in allowed then v.value else default
  }

  /** Picking the picked value again changes nothing. */
  lemma PickIdempotent(v: Option<string>, allowed: seq<string>, default: string)
    ensures Pick(Some(Pick(v, allowed, default)), allowed, default) == Pick(v, allowed, default)
  {
  }
}
