/** Cache keys (server/cache.go): a typed key joins a name's text and the decimal query type with a
    colon; delegations are stored under the bare text of their zone. */
module CacheKeys {
  import opened Names

  function Digit(d: nat): char
    requires d < 10
  {
    (48 + d) as char
  }

  /** `strconv.FormatUint(n, 10)`. */
  function Decimal(n: nat): (s: string)
    ensures |s| >= 1 && forall i :: 0 <= i < |s| ==> '0' <= s[i] <= '9'
  {
    if n < 10 then [Digit(n)] else Decimal(n / 10) + [Digit(n % 10)]
  }

  function CacheKey(name: string, qtype: nat): string {
    name + ":" + Decimal(qtype)
  }

  function TypedKey(n: Name, qtype: nat): string {
    CacheKey(Text(n), qtype)
  }

  lemma {:induction false} DecimalInjective(a: nat, b: nat)
    requires Decimal(a) == Decimal(b)
    ensures a == b
  {
    var s := Decimal(a);
    if a < 10 && b < 10 {
      assert s[0] == Digit(a) == Digit(b);
    } else if a >= 10 && b >= 10 {
      assert s[|s| - 1] == Digit(a % 10) == Digit(b % 10);
      assert s[..|s| - 1] == Decimal(a / 10) == Decimal(b / 10);
      DecimalInjective(a / 10, b / 10);
    }
  }

  /** Typed keys determine both the name and the type, whatever characters the name contains. */
  lemma CacheKeyInjective(m: string, s: nat, n: string, t: nat)
    requires CacheKey(m, s) == CacheKey(n, t)
    ensures m == n && s == t
  {
    var key := CacheKey(m, s);
    assert key[|m|] == ':' && key[|n|] == ':';
    assert forall i :: |m| < i < |key| ==> key[i] == Decimal(s)[i - |m| - 1];
    assert forall i :: |n| < i < |key| ==> key[i] == Decimal(t)[i - |n| - 1];
    assert |m| == |n|;
    assert key[..|m|] == m && key[..|n|] == n;
    assert key[|m| + 1..] == Decimal(s) && key[|n| + 1..] == Decimal(t);
    DecimalInjective(s, t);
  }

  lemma TypedKeyInjective(m: Name, s: nat, n: Name, t: nat)
    requires TypedKey(m, s) == TypedKey(n, t)
    ensures m == n && s == t
  {
    CacheKeyInjective(Text(m), s, Text(n), t);
    TextInjective(m, n);
  }

  /** A typed key ends in a digit, so it is never the text of a zone nor the empty string. */
  lemma TypedKeyIsNoZone(m: string, s: nat, n: Name)
    ensures CacheKey(m, s) != Text(n) && CacheKey(m, s) != ""
  {
    var key := CacheKey(m, s);
    assert key[|key| - 1] == Decimal(s)[|Decimal(s)| - 1];
    TextEndsWithDot(n);
  }
}
