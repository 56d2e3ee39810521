/** NUL-terminated strings as the C library orders them. */
module CStrings {

  /** The sign of strcmp(a, b). */
  function StrCmp(a: string, b: string): (r: int)
    ensures -1 <= r <= 1
  {
    if a == [] then (if b == [] then 0 else -1)
    else if b == [] then 1
    else if a[0] < b[0] then -1
    else if b[0] < a[0] then 1
    else StrCmp(a[1..], b[1..])
  }

  predicate Less(a: string, b: string) {
    StrCmp(a, b) < 0
  }

  /** strncmp(d, s, strlen(d)) == 0 */
  predicate HasPrefix(d: string, s: string) {
    d <= s
  }

  predicate IsDotfile(path: string) {
    path != [] && path[0] == '.'
  }

  lemma {:induction false} CmpEqual(a: string, b: string)
    ensures StrCmp(a, b) == 0 <==> a == b
  {
    if a != [] && b != [] && a[0] == b[0] {
      CmpEqual(a[1..], b[1..]);
      assert a == [a[0]] + a[1..] && b == [b[0]] + b[1..];
    }
  }

  lemma {:induction false} CmpFlip(a: string, b: string)
    ensures StrCmp(a, b) == -StrCmp(b, a)
  {
    if a != [] && b != [] && a[0] == b[0] {
      CmpFlip(a[1..], b[1..]);
    }
  }

  lemma {:induction false} LessTransitive(a: string, b: string, c: string)
    requires Less(a, b) && Less(b, c)
    ensures Less(a, c)
  {
    if a != [] && a[0] == b[0] == c[0] {
      LessTransitive(a[1..], b[1..], c[1..]);
    }
  }

  lemma LessIrreflexive(a: string)
    ensures !Less(a, a)
  {
    CmpEqual(a, a);
  }

  lemma LessTotal(a: string, b: string)
    ensures Less(a, b) || a == b || Less(b, a)
    ensures !(Less(a, b) && Less(b, a))
  {
    CmpEqual(a, b);
    CmpFlip(a, b);
  }

  /** A proper extension comes after its prefix. */
  lemma {:induction false} PrefixLess(d: string, s: string)
    requires HasPrefix(d, s) && d != s
    ensures Less(d, s)
  {
    if d == [] {
    } else {
      assert s[0] == d[0] && d[1..] <= s[1..];
      assert d == [d[0]] + d[1..] && s == [s[0]] + s[1..];
      PrefixLess(d[1..], s[1..]);
    }
  }

  /** The strings that extend d lie together directly after d. */
  lemma {:induction false} PrefixBlock(d: string, y: string, z: string)
    requires Less(d, y) && Less(y, z) && HasPrefix(d, z)
    ensures HasPrefix(d, y)
  {
    if d == [] {
    } else {
      assert z[0] == d[0];
      assert y[0] == d[0];
      assert d[1..] <= z[1..];
      PrefixBlock(d[1..], y[1..], z[1..]);
      assert y == [y[0]] + y[1..] && d == [d[0]] + d[1..];
    }
  }
}
