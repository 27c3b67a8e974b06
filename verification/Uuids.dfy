/** Identifiers as the store sees them: a UUID is a 128-bit number, printed in the
    8-4-4-4-12 lower-case form. Sorting compares the numbers, while cursors and
    accepted-memory references compare the printed strings; the lemmas here show
    that the two views agree. */
module Uuids {

  const UUID_SPAN: nat := 0x1_0000_0000_0000_0000_0000_0000_0000_0000

  type Word = n: nat | n < UUID_SPAN

  datatype Uuid = Uuid(n: Word)

  function HexChar(d: nat): char
    requires d < 16
  {
    "0123456789abcdef"[d]
  }

  /** The `width` low hexadecimal digits of n, most significant first. */
  function HexDigits(n: nat, width: nat): (s: string)
    ensures |s| == width
  {
    if width == 0 then "" else HexDigits(n / 16, width - 1) + [HexChar(n % 16)]
  }

  /** `str(uuid)`. */
  function Str(u: Uuid): (s: string)
    ensures |s| == 36
  {
    var h := HexDigits(u.n, 32);
    h[..8] + ("-" + (h[8..12] + ("-" + (h[12..16] + ("-" + (h[16..20] + ("-" + h[20..])))))))
  }

  /** The printed form: 32 lower-case hexadecimal digits in groups of 8, 4, 4, 4 and 12. */
  lemma StrShape(u: Uuid)
    ensures var s := Str(u);
            |s| == 36 && s[8] == '-' && s[13] == '-' && s[18] == '-' && s[23] == '-'
            && s[..8] + s[9..13] + s[14..18] + s[19..23] + s[24..] == HexDigits(u.n, 32)
  {
    var s, h := Str(u), HexDigits(u.n, 32);
    assert s[..8] == h[..8] && s[9..13] == h[8..12] && s[14..18] == h[12..16];
    assert s[19..23] == h[16..20] && s[24..] == h[20..];
    assert h[..8] + h[8..12] + h[12..16] + h[16..20] + h[20..] == h;
  }

  /** Python's `<` on strings: lexicographic by code point. */
  predicate StrLess(a: string, b: string) {
    b != "" && (a == "" || a[0] < b[0] || (a[0] == b[0] && StrLess(a[1..], b[1..])))
  }

  /** `f"{workspace_id}:{key}"`. */
  function ScopeKey(workspace: Uuid, key: string): string {
    Str(workspace) + ":" + key
  }

  function Pow16(w: nat): nat {
    if w == 0 then 1 else 16 * Pow16(w - 1)
  }

  lemma {:induction false} Pow16Sum(a: nat, b: nat)
    ensures Pow16(a + b) == Pow16(a) * Pow16(b)
  {
    if a > 0 { Pow16Sum(a - 1, b); }
  }

  lemma Pow16Doubles(a: nat)
    ensures Pow16(2 * a) == Pow16(a) * Pow16(a)
  {
    Pow16Sum(a, a);
  }

  lemma SpanIsPow16()
    ensures Pow16(32) == UUID_SPAN
  {
    Pow16Doubles(4);
    Pow16Doubles(8);
    Pow16Doubles(16);
  }

  // ---------------------------------------------------------------- order

  lemma {:induction false} LessIrreflexive(a: string)
    ensures !StrLess(a, a)
  {
    if a != "" { LessIrreflexive(a[1..]); }
  }

  /** Blocks of equal length are compared before whatever follows them. */
  lemma {:induction false} LessByBlock(a: string, b: string, x: string, y: string)
    requires |a| == |b|
    ensures StrLess(a + x, b + y) <==> StrLess(a, b) || (a == b && StrLess(x, y))
  {
    if a == "" {
      assert a + x == x && b + y == y;
    } else {
      assert (a + x)[1..] == a[1..] + x && (b + y)[1..] == b[1..] + y;
      LessByBlock(a[1..], b[1..], x, y);
      assert a == b <==> a[0] == b[0] && a[1..] == b[1..];
    }
  }

  lemma SplitOrder(n: nat, m: nat)
    ensures n < m <==> n / 16 < m / 16 || (n / 16 == m / 16 && n % 16 < m % 16)
    ensures n == m <==> n / 16 == m / 16 && n % 16 == m % 16
  {}

  lemma CharOrder(d: nat, e: nat)
    requires d < 16 && e < 16
    ensures StrLess([HexChar(d)], [HexChar(e)]) <==> d < e
    ensures HexChar(d) == HexChar(e) <==> d == e
  {}

  lemma {:induction false} DigitsOrder(n: nat, m: nat, w: nat)
    requires n < Pow16(w) && m < Pow16(w)
    ensures StrLess(HexDigits(n, w), HexDigits(m, w)) <==> n < m
    ensures HexDigits(n, w) == HexDigits(m, w) <==> n == m
  {
    if w > 0 {
      var a, b := HexDigits(n / 16, w - 1), HexDigits(m / 16, w - 1);
      var c, d := HexChar(n % 16), HexChar(m % 16);
      DigitsOrder(n / 16, m / 16, w - 1);
      LessByBlock(a, b, [c], [d]);
      CharOrder(n % 16, m % 16);
      SplitOrder(n, m);
      assert (a + [c])[..w - 1] == a && (b + [d])[..w - 1] == b;
      assert (a + [c])[w - 1] == c && (b + [d])[w - 1] == d;
    }
  }

  /** Splicing the same separator in front of both rests changes no comparison. */
  lemma SeparatorNeutral(a: string, b: string, x: string, y: string, x': string, y': string)
    requires |a| == |b|
    requires StrLess(x, y) <==> StrLess(x', y')
    ensures StrLess(a + ("-" + x), b + ("-" + y)) <==> StrLess(a + x', b + y')
  {
    LessByBlock(a, b, "-" + x, "-" + y);
    LessByBlock("-", "-", x, y);
    LessIrreflexive("-");
    LessByBlock(a, b, x', y');
  }

  lemma Rejoin(h: string, i: nat, j: nat)
    requires i <= j <= |h|
    ensures h[i..j] + h[j..] == h[i..]
  {}

  /** The cursor's string comparison and the sort's numeric comparison coincide. */
  lemma StrOrder(a: Uuid, b: Uuid)
    ensures StrLess(Str(a), Str(b)) <==> a.n < b.n
  {
    var h, g := HexDigits(a.n, 32), HexDigits(b.n, 32);
    Rejoin(h, 16, 20);
    Rejoin(g, 16, 20);
    SeparatorNeutral(h[16..20], g[16..20], h[20..], g[20..], h[20..], g[20..]);
    Rejoin(h, 12, 16);
    Rejoin(g, 12, 16);
    SeparatorNeutral(h[12..16], g[12..16],
                     h[16..20] + ("-" + h[20..]), g[16..20] + ("-" + g[20..]), h[16..], g[16..]);
    Rejoin(h, 8, 12);
    Rejoin(g, 8, 12);
    SeparatorNeutral(h[8..12], g[8..12],
                     h[12..16] + ("-" + (h[16..20] + ("-" + h[20..]))),
                     g[12..16] + ("-" + (g[16..20] + ("-" + g[20..]))), h[12..], g[12..]);
    Rejoin(h, 0, 8);
    Rejoin(g, 0, 8);
    SeparatorNeutral(h[..8], g[..8],
                     h[8..12] + ("-" + (h[12..16] + ("-" + (h[16..20] + ("-" + h[20..]))))),
                     g[8..12] + ("-" + (g[12..16] + ("-" + (g[16..20] + ("-" + g[20..]))))),
                     h[8..], g[8..]);
    assert h[..8] + h[8..] == h && g[..8] + g[8..] == g;
    SpanIsPow16();
    DigitsOrder(a.n, b.n, 32);
  }

  lemma StrInjective(a: Uuid, b: Uuid)
    requires Str(a) == Str(b)
    ensures a == b
  {
    StrOrder(a, b);
    StrOrder(b, a);
    LessIrreflexive(Str(a));
  }

  /** Two workspaces of a tenant never share a scoped idempotency key. */
  lemma ScopeKeyInjective(w: Uuid, k: string, w': Uuid, k': string)
    requires ScopeKey(w, k) == ScopeKey(w', k')
    ensures w == w' && k == k'
  {
    assert ScopeKey(w, k)[..36] == Str(w) && ScopeKey(w', k')[..36] == Str(w');
    assert ScopeKey(w, k)[37..] == k && ScopeKey(w', k')[37..] == k';
    StrInjective(w, w');
  }
}
