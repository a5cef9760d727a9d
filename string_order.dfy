/**
 * Python's ordering of `str` values (lexicographic by code point, a proper
 * prefix sorting first), sorting a finite set of names under it, and
 * fixed-width zero-padded decimal rendering, whose order agrees with the
 * numeric order.
 */
module StringOrder {

  /** `a < b` on Python strings. */
  predicate Less(a: string, b: string)
    decreases |a|
  {
    |b| > 0 && (|a| == 0 || a[0] < b[0] || (a[0] == b[0] && Less(a[1..], b[1..])))
  }

  lemma {:induction false} Irreflexive(a: string)
    ensures !Less(a, a)
    decreases |a|
  {
    if |a| > 0 { Irreflexive(a[1..]); }
  }

  lemma {:induction false} Asymmetric(a: string, b: string)
    ensures !(Less(a, b) && Less(b, a))
    decreases |a|
  {
    if |a| > 0 && |b| > 0 && a[0] == b[0] { Asymmetric(a[1..], b[1..]); }
  }

  lemma {:induction false} Transitive(a: string, b: string, c: string)
    requires Less(a, b) && Less(b, c)
    ensures Less(a, c)
    decreases |a|
  {
    if |a| > 0 && a[0] == b[0] && b[0] == c[0] { Transitive(a[1..], b[1..], c[1..]); }
  }

  lemma {:induction false} Total(a: string, b: string)
    ensures a == b || Less(a, b) || Less(b, a)
    decreases |a|
  {
    if |a| > 0 && |b| > 0 && a[0] == b[0] {
      Total(a[1..], b[1..]);
      if a[1..] == b[1..] {
        assert a == [a[0]] + a[1..] && b == [b[0]] + b[1..];
      }
    }
  }

  lemma AsymmetricAll()
    ensures forall a, b :: Less(a, b) ==> !Less(b, a)
  {
    forall a, b | Less(a, b) ensures !Less(b, a) { Asymmetric(a, b); }
  }

  /**
   * Comparing two concatenations whose first parts have the same length
   * compares the first parts, and the second parts only on a tie.
   */
  lemma {:induction false} LessAppend(a1: string, b1: string, a2: string, b2: string)
    requires |a1| == |a2|
    ensures Less(a1 + b1, a2 + b2) <==> Less(a1, a2) || (a1 == a2 && Less(b1, b2))
    decreases |a1|
  {
    if |a1| > 0 {
      assert (a1 + b1)[0] == a1[0] && (a2 + b2)[0] == a2[0];
      assert (a1 + b1)[1..] == a1[1..] + b1;
      assert (a2 + b2)[1..] == a2[1..] + b2;
      LessAppend(a1[1..], b1, a2[1..], b2);
      if a1[0] == a2[0] && a1[1..] == a2[1..] {
        assert a1 == [a1[0]] + a1[1..] && a2 == [a2[0]] + a2[1..];
      }
    } else {
      assert a1 == a2 == [];
      assert a1 + b1 == b1 && a2 + b2 == b2;
    }
  }

  /** Strictly ascending, so also free of duplicates. */
  predicate Sorted(s: seq<string>)
  {
    forall i, j :: 0 <= i < j < |s| ==> Less(s[i], s[j])
  }

  predicate IsMinimum(m: string, s: set<string>)
  {
    m in s && forall x :: x in s ==> x == m || Less(m, x)
  }

  lemma {:induction false} MinimumExists(s: set<string>)
    requires s != {}
    ensures exists m :: IsMinimum(m, s)
    decreases |s|
  {
    var y :| y in s;
    var rest := s - {y};
    if rest == {} {
      forall x | x in s ensures x == y { assert x !in rest; }
      assert IsMinimum(y, s);
    } else {
      MinimumExists(rest);
      var m :| IsMinimum(m, rest);
      Total(y, m);
      if Less(y, m) {
        forall x | x in s ensures x == y || Less(y, x) {
          if x != y && x != m {
            assert x in rest;
            Transitive(y, m, x);
          }
        }
        assert IsMinimum(y, s);
      } else {
        forall x | x in s ensures x == m || Less(m, x) {
          if x != y { assert x in rest; }
        }
        assert IsMinimum(m, s);
      }
    }
  }

  /** The least name of a non-empty set. */
  function Minimum(s: set<string>): (m: string)
    requires s != {}
    ensures IsMinimum(m, s)
  {
    MinimumExists(s);
    AsymmetricAll();
    var m :| IsMinimum(m, s);
    m
  }

  /** The elements of `s` in ascending order, as Python's `sorted` yields them. */
  function SortedElements(s: set<string>): (r: seq<string>)
    ensures Sorted(r)
    ensures |r| == |s|
    ensures forall x :: x in r <==> x in s
    decreases |s|
  {
    if s == {} then []
    else
      var m := Minimum(s);
      var rest := SortedElements(s - {m});
      assert forall i :: 0 <= i < |rest| ==> Less(m, rest[i]) by {
        forall i | 0 <= i < |rest| ensures Less(m, rest[i]) {
          assert rest[i] in s - {m};
        }
      }
      [m] + rest
  }

  lemma {:induction false} SortedDistinct(s: seq<string>)
    requires Sorted(s)
    ensures |set x | x in s| == |s|
  {
    if s != [] {
      SortedDistinct(s[1..]);
      assert (set x | x in s) == {s[0]} + (set x | x in s[1..]);
      Irreflexive(s[0]);
      assert s[0] !in s[1..] by {
        forall i | 0 <= i < |s[1..]| ensures s[1..][i] != s[0] {
          assert Less(s[0], s[i + 1]);
        }
      }
    }
  }

  /** 10 to the power `w`. */
  function Pow10(w: nat): (p: nat)
    ensures p >= 1
  {
    if w == 0 then 1 else 10 * Pow10(w - 1)
  }

  function Digit(n: nat): (c: char)
    requires n < 10
    ensures '0' <= c <= '9'
  {
    (48 + n) as char
  }

  /** `n` in decimal, zero-padded to `w` digits (strftime's `%02d`-style fields). */
  function Padded(n: nat, w: nat): (s: string)
    ensures |s| == w
    ensures forall i :: 0 <= i < |s| ==> '0' <= s[i] <= '9'
  {
    if w == 0 then [] else Padded(n / 10, w - 1) + [Digit(n % 10)]
  }

  /** Padded renderings of numbers that fit compare as the numbers do. */
  lemma {:induction false} PaddedOrder(n: nat, m: nat, w: nat)
    requires n < Pow10(w) && m < Pow10(w)
    ensures Less(Padded(n, w), Padded(m, w)) <==> n < m
    ensures Padded(n, w) == Padded(m, w) <==> n == m
  {
    if w == 0 {
      Irreflexive([]);
    } else {
      var p := Pow10(w - 1);
      assert n / 10 < p && m / 10 < p;
      PaddedOrder(n / 10, m / 10, w - 1);
      var hn, hm := Padded(n / 10, w - 1), Padded(m / 10, w - 1);
      var dn, dm := [Digit(n % 10)], [Digit(m % 10)];
      LessAppend(hn, dn, hm, dm);
      assert Less(dn, dm) <==> n % 10 < m % 10;
      if hn + dn == hm + dm {
        assert hn == (hn + dn)[..w - 1] && hm == (hm + dm)[..w - 1];
        assert dn[0] == (hn + dn)[w - 1] && dm[0] == (hm + dm)[w - 1];
      }
    }
  }

  /** Lexicographic order on equally long tuples of numbers. */
  predicate NatsLess(a: seq<nat>, b: seq<nat>)
    requires |a| == |b|
  {
    |a| > 0 && (a[0] < b[0] || (a[0] == b[0] && NatsLess(a[1..], b[1..])))
  }

  /** Every value fits in its field's width. */
  predicate Fit(vals: seq<nat>, widths: seq<nat>)
    requires |vals| == |widths|
  {
    forall i :: 0 <= i < |vals| ==> vals[i] < Pow10(widths[i])
  }

  function RenderedLength(widths: seq<nat>, seps: seq<string>): nat
    requires |widths| == |seps|
  {
    if widths == [] then 0 else widths[0] + |seps[0]| + RenderedLength(widths[1..], seps[1..])
  }

  /**
   * Each value zero-padded to its width and followed by its separator, as a
   * strftime format made of numeric fields and literal text renders them.
   */
  function Render(vals: seq<nat>, widths: seq<nat>, seps: seq<string>): (s: string)
    requires |vals| == |widths| == |seps|
    ensures |s| == RenderedLength(widths, seps)
  {
    if vals == [] then []
    else Padded(vals[0], widths[0]) + seps[0] + Render(vals[1..], widths[1..], seps[1..])
  }

  /**
   * Renderings with one layout compare as their tuples do, and coincide
   * exactly when the tuples do.
   */
  lemma {:induction false} RenderOrder(a: seq<nat>, b: seq<nat>, widths: seq<nat>, seps: seq<string>)
    requires |a| == |b| == |widths| == |seps|
    requires Fit(a, widths) && Fit(b, widths)
    ensures Less(Render(a, widths, seps), Render(b, widths, seps)) <==> NatsLess(a, b)
    ensures Render(a, widths, seps) == Render(b, widths, seps) <==> a == b
  {
    if a == [] {
      Irreflexive([]);
    } else {
      var w, sep := widths[0], seps[0];
      var pa, pb := Padded(a[0], w), Padded(b[0], w);
      var ra, rb := Render(a[1..], widths[1..], seps[1..]), Render(b[1..], widths[1..], seps[1..]);
      assert Fit(a[1..], widths[1..]) && Fit(b[1..], widths[1..]) by {
        forall i | 0 <= i < |a| - 1 ensures a[1..][i] < Pow10(widths[1..][i]) && b[1..][i] < Pow10(widths[1..][i]) {
          assert a[i + 1] < Pow10(widths[i + 1]) && b[i + 1] < Pow10(widths[i + 1]);
        }
      }
      RenderOrder(a[1..], b[1..], widths[1..], seps[1..]);
      assert a[0] < Pow10(w) && b[0] < Pow10(w);
      assert Less(pa + sep, pb + sep) <==> a[0] < b[0] by {
        PaddedOrder(a[0], b[0], w);
        Irreflexive(sep);
        LessAppend(pa, sep, pb, sep);
      }
      assert pa + sep == pb + sep <==> a[0] == b[0] by {
        PaddedOrder(a[0], b[0], w);
        if pa + sep == pb + sep {
          assert pa == (pa + sep)[..w] && pb == (pb + sep)[..w];
        }
      }
      assert pa + sep + ra == pb + sep + rb <==> pa + sep == pb + sep && ra == rb by {
        if pa + sep + ra == pb + sep + rb {
          assert pa + sep == (pa + sep + ra)[..w + |sep|] && pb + sep == (pb + sep + rb)[..w + |sep|];
          assert ra == (pa + sep + ra)[w + |sep|..] && rb == (pb + sep + rb)[w + |sep|..];
        }
      }
      assert a == b <==> a[0] == b[0] && a[1..] == b[1..] by {
        if a[0] == b[0] && a[1..] == b[1..] {
          assert a == [a[0]] + a[1..] && b == [b[0]] + b[1..];
        }
      }
      LessAppend(pa + sep, ra, pb + sep, rb);
    }
  }
}
