/**
 White space, strings in order, and lists of them sorted with the duplicates taken out.
 */
module Strings {
  /** The characters with the Unicode White_Space property. */
  predicate IsSpace(c: char) {
    var n := c as int;
    || 0x09 <= n <= 0x0D || n == 0x20 || n == 0x85 || n == 0xA0 || n == 0x1680 || 0x2000 <= n <= 0x200A
    || n == 0x2028 || n == 0x2029 || n == 0x202F || n == 0x205F || n == 0x3000
  }

  /** `a` sorts before `b`. */
  predicate Before(a: string, b: string)
    decreases |a|
  {
    b != "" && (a == "" || a[0] < b[0] || (a[0] == b[0] && Before(a[1..], b[1..])))
  }

  lemma {:induction false} BeforeIsStrict(a: string, b: string)
    ensures !(Before(a, b) && Before(b, a)) && !Before(a, a)
    decreases |a|
  {
    if a == "" {
    } else {
      BeforeIsStrict(a[1..], if b == "" then "" else b[1..]);
    }
  }

  lemma {:induction false} BeforeIsTotal(a: string, b: string)
    ensures a == b || Before(a, b) || Before(b, a)
    decreases |a|
  {
    if a != "" && b != "" && a[0] == b[0] {
      BeforeIsTotal(a[1..], b[1..]);
      assert a == [a[0]] + a[1..] && b == [b[0]] + b[1..];
    }
  }

  lemma {:induction false} BeforeIsTransitive(a: string, b: string, c: string)
    requires Before(a, b) && Before(b, c)
    ensures Before(a, c)
    decreases |a|
  {
    if a != "" && a[0] == b[0] == c[0] {
      BeforeIsTransitive(a[1..], b[1..], c[1..]);
    }
  }

  /** The first `k` characters are the same, and then `a` ends or has the lower one. */
  predicate PartsAt(a: string, b: string, k: nat) {
    k <= |a| && k < |b| && a[..k] == b[..k] && (k < |a| ==> a[k] < b[k])
  }

  /** The order is that of the first characters which differ, with what is shorter first. */
  lemma {:induction false} BeforeMeans(a: string, b: string)
    ensures Before(a, b) <==> exists k: nat :: PartsAt(a, b, k)
    decreases |a|
  {
    if a != "" && b != "" && a[0] == b[0] {
      BeforeMeans(a[1..], b[1..]);
      if k: nat :| PartsAt(a[1..], b[1..], k) {
        assert a[..k + 1] == [a[0]] + a[1..][..k] && b[..k + 1] == [b[0]] + b[1..][..k];
        assert PartsAt(a, b, k + 1);
      }
      if k: nat :| PartsAt(a, b, k) {
        if k == 0 {
          assert false;
        }
        assert a[1..][..k - 1] == a[..k][1..] && b[1..][..k - 1] == b[..k][1..];
        assert PartsAt(a[1..], b[1..], k - 1);
      }
    } else {
      if Before(a, b) {
        assert PartsAt(a, b, 0);
      }
      if k: nat :| PartsAt(a, b, k) {
        assert k > 0 ==> a[..k][0] == b[..k][0];
      }
    }
  }

  /** Sorted, each string once. */
  ghost predicate Ordered(s: seq<string>) {
    forall i, j :: 0 <= i < j < |s| ==> Before(s[i], s[j])
  }

  function Inserted(s: seq<string>, x: string): seq<string> {
    if s == [] then [x]
    else if x == s[|s| - 1] then s
    else if Before(s[|s| - 1], x) then s + [x]
    else Inserted(s[..|s| - 1], x) + [s[|s| - 1]]
  }

  /** `xs` sorted, the duplicates taken out. */
  function Arranged(xs: seq<string>): seq<string> {
    if xs == [] then [] else Inserted(Arranged(xs[..|xs| - 1]), xs[|xs| - 1])
  }

  lemma {:induction false} InsertedMeans(s: seq<string>, x: string)
    requires Ordered(s)
    ensures Ordered(Inserted(s, x))
    ensures forall y :: y in Inserted(s, x) <==> y in s || y == x
  {
    if s == [] {
    } else {
      var rest, last := s[..|s| - 1], s[|s| - 1];
      assert s == rest + [last];
      BeforeIsTotal(last, x);
      if Before(last, x) {
        forall i | 0 <= i < |s| - 1
          ensures Before(s[i], x)
        {
          BeforeIsTransitive(s[i], last, x);
        }
      } else if x != last {
        InsertedMeans(rest, x);
        forall i | 0 <= i < |Inserted(rest, x)|
          ensures Before(Inserted(rest, x)[i], last)
        {
          assert Inserted(rest, x)[i] in Inserted(rest, x);
        }
      }
    }
  }

  lemma {:induction false} ArrangedMeans(xs: seq<string>)
    ensures Ordered(Arranged(xs))
    ensures forall y :: y in Arranged(xs) <==> y in xs
  {
    if xs == [] {
    } else {
      ArrangedMeans(xs[..|xs| - 1]);
      InsertedMeans(Arranged(xs[..|xs| - 1]), xs[|xs| - 1]);
      assert xs == xs[..|xs| - 1] + [xs[|xs| - 1]];
    }
  }

  lemma FirstIsIn(a: seq<string>)
    requires a != []
    ensures a[0] in a
  {
  }

  lemma LastIsAfter(a: seq<string>, y: string)
    requires Ordered(a) && y in a
    ensures y == a[|a| - 1] || Before(y, a[|a| - 1])
  {
  }

  lemma AllButLast(a: seq<string>, z: string)
    requires Ordered(a) && a != []
    ensures z in a[..|a| - 1] <==> z in a && z != a[|a| - 1]
  {
    assert a == a[..|a| - 1] + [a[|a| - 1]];
    if z in a[..|a| - 1] {
      BeforeIsStrict(z, z);
    }
  }

  /** The last of a sorted list is after all others, so two with the same strings end alike, and so on down. */
  lemma {:induction false} OrderedIsUnique(a: seq<string>, b: seq<string>)
    requires Ordered(a) && Ordered(b) && forall y :: y in a <==> y in b
    ensures a == b
  {
    if a == [] {
      if b != [] {
        FirstIsIn(b);
        assert false;
      }
    } else {
      assert a[0] in a;
      var x, y := a[|a| - 1], b[|b| - 1];
      assert x in a && y in b;
      LastIsAfter(a, y);
      LastIsAfter(b, x);
      BeforeIsStrict(x, y);
      var c, d := a[..|a| - 1], b[..|b| - 1];
      forall z
        ensures z in c <==> z in d
      {
        AllButLast(a, z);
        AllButLast(b, z);
      }
      OrderedIsUnique(c, d);
      assert a == c + [x] && b == d + [y];
    }
  }

  /** What is sorted and deduplicated depends on which strings there are, and on nothing else. */
  lemma ArrangedIgnoresOrder(xs: seq<string>, ys: seq<string>)
    requires forall y :: y in xs <==> y in ys
    ensures Arranged(xs) == Arranged(ys)
  {
    ArrangedMeans(xs);
    ArrangedMeans(ys);
    OrderedIsUnique(Arranged(xs), Arranged(ys));
  }
}
