/**
 * The order Python's `sorted` puts strings in: lexicographic by code point,
 * a proper prefix coming first.
 */
module LexOrder {
  import opened Enumerations

  /** `a <= b` between Python strings. */
  predicate LexLe(a: string, b: string)
  {
    |a| == 0 || (|b| > 0 && (a[0] < b[0] || (a[0] == b[0] && LexLe(a[1..], b[1..]))))
  }

  /** `a < b` between Python strings. */
  predicate LexLt(a: string, b: string)
  {
    LexLe(a, b) && a != b
  }

  /** Any two strings are comparable. */
  lemma {:induction false} LexLeTotal(a: string, b: string)
    ensures LexLe(a, b) || LexLe(b, a)
  {
    if |a| > 0 && |b| > 0 && a[0] == b[0] {
      LexLeTotal(a[1..], b[1..]);
    }
  }

  lemma {:induction false} LexLeTransitive(a: string, b: string, c: string)
    requires LexLe(a, b) && LexLe(b, c)
    ensures LexLe(a, c)
  {
    if |a| > 0 && a[0] == b[0] && b[0] == c[0] {
      LexLeTransitive(a[1..], b[1..], c[1..]);
    }
  }

  lemma {:induction false} LexLeAntisymmetric(a: string, b: string)
    requires LexLe(a, b) && LexLe(b, a)
    ensures a == b
  {
    if |a| > 0 {
      LexLeAntisymmetric(a[1..], b[1..]);
      assert a == [a[0]] + a[1..] && b == [b[0]] + b[1..];
    }
  }

  /** Ascending order without repetition, as `sorted` gives the keys of a dict. */
  ghost predicate StrictlyAscending(ks: seq<string>)
  {
    forall i, j :: 0 <= i < j < |ks| ==> LexLt(ks[i], ks[j])
  }

  /** The least string of a non-empty set. */
  method Least(s: set<string>) returns (m: string)
    requires s != {}
    ensures m in s
    ensures forall y :: y in s ==> LexLe(m, y)
  {
    m :| m in s;
    LexLeTotal(m, m);
    var rest := s - {m};
    while rest != {}
      invariant rest <= s && m in s
      invariant forall y :: y in s && y !in rest ==> LexLe(m, y)
      decreases rest
    {
      var y :| y in rest;
      if LexLe(y, m) {
        forall z | z in s && z !in rest
          ensures LexLe(y, z)
        {
          LexLeTransitive(y, m, z);
        }
        LexLeTotal(y, y);
        m := y;
      } else {
        LexLeTotal(m, y);
      }
      rest := rest - {y};
    }
  }

  /** `sorted(keys)`: the keys of a dict in ascending order. */
  method SortedKeys(keys: set<string>) returns (ks: seq<string>)
    ensures Enumerates(ks, keys)
    ensures StrictlyAscending(ks)
  {
    ks := [];
    var rest := keys;
    while rest != {}
      invariant rest <= keys
      invariant forall x :: x in ks <==> x in keys && x !in rest
      invariant StrictlyAscending(ks)
      invariant forall i, y :: 0 <= i < |ks| && y in rest ==> LexLt(ks[i], y)
      decreases rest
    {
      var m := Least(rest);
      ks := ks + [m];
      rest := rest - {m};
    }
  }
}
