/**
 * Python's ordering of `str` values: lexicographic by code point, a proper
 * prefix before any extension of it. This is the order `min` and `max` use on
 * the raw date strings before anything is parsed.
 */
module TextOrder {

  /** `a <= b` on Python strings. */
  predicate LexLe(a: string, b: string) {
    if a == [] then true
    else if b == [] then false
    else if a[0] != b[0] then a[0] < b[0]
    else LexLe(a[1..], b[1..])
  }

  lemma {:induction false} LexLeReflexive(a: string)
    ensures LexLe(a, a)
  {
    if a != [] {
      LexLeReflexive(a[1..]);
    }
  }

  lemma {:induction false} LexLeTotal(a: string, b: string)
    ensures LexLe(a, b) || LexLe(b, a)
  {
    if a != [] && b != [] && a[0] == b[0] {
      LexLeTotal(a[1..], b[1..]);
    }
  }

  lemma {:induction false} LexLeAntisymmetric(a: string, b: string)
    requires LexLe(a, b) && LexLe(b, a)
    ensures a == b
  {
    if a != [] && b != [] {
      LexLeAntisymmetric(a[1..], b[1..]);
      assert a == [a[0]] + a[1..] && b == [b[0]] + b[1..];
    }
  }

  lemma {:induction false} LexLeTransitive(a: string, b: string, c: string)
    requires LexLe(a, b) && LexLe(b, c)
    ensures LexLe(a, c)
  {
    if a != [] && b != [] && c != [] && a[0] == b[0] && b[0] == c[0] {
      LexLeTransitive(a[1..], b[1..], c[1..]);
    }
  }

  /** `min(xs)` on a non-empty list of strings. */
  function Min(xs: seq<string>): (m: string)
    requires xs != []
    ensures m in xs
    ensures forall k :: 0 <= k < |xs| ==> LexLe(m, xs[k])
  {
    if |xs| == 1 then
      LexLeReflexive(xs[0]);
      xs[0]
    else
      var rest := Min(xs[1..]);
      LexLeTotal(xs[0], rest);
      LexLeReflexive(xs[0]);
      var m := if LexLe(rest, xs[0]) && rest != xs[0] then rest else xs[0];
      assert forall k :: 0 <= k < |xs| ==> LexLe(m, xs[k]) by {
        forall k | 0 <= k < |xs|
          ensures LexLe(m, xs[k])
        {
          if k > 0 {
            assert LexLe(rest, xs[1..][k - 1]);
            if m != rest {
              LexLeTransitive(m, rest, xs[k]);
            }
          }
        }
      }
      m
  }

  /** `max(xs)` on a non-empty list of strings. */
  function Max(xs: seq<string>): (m: string)
    requires xs != []
    ensures m in xs
    ensures forall k :: 0 <= k < |xs| ==> LexLe(xs[k], m)
  {
    if |xs| == 1 then
      LexLeReflexive(xs[0]);
      xs[0]
    else
      var rest := Max(xs[1..]);
      LexLeTotal(xs[0], rest);
      LexLeReflexive(xs[0]);
      var m := if LexLe(xs[0], rest) && rest != xs[0] then rest else xs[0];
      assert forall k :: 0 <= k < |xs| ==> LexLe(xs[k], m) by {
        forall k | 0 <= k < |xs|
          ensures LexLe(xs[k], m)
        {
          if k > 0 {
            assert LexLe(xs[1..][k - 1], rest);
            if m != rest {
              LexLeTransitive(xs[k], rest, m);
            }
          }
        }
      }
      m
  }
}
