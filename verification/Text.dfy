/**
 Strings are sequences of characters, ordered lexicographically: the order of Python's
 `sorted` and of a DynamoDB sort key.
 */
module Text {
  /** a comes strictly before b. */
  predicate Before(a: string, b: string) {
    b != [] && (a == [] || a[0] < b[0] || (a[0] == b[0] && Before(a[1..], b[1..])))
  }

  lemma {:induction false} BeforeIsStrict(a: string, b: string)
    ensures !(Before(a, b) && Before(b, a))
    ensures !Before(a, a)
  {
    if a == [] {
    } else {
      BeforeIsStrict(a[1..], if b == [] then [] else b[1..]);
    }
  }

  lemma {:induction false} BeforeIsTransitive(a: string, b: string, c: string)
    requires Before(a, b) && Before(b, c)
    ensures Before(a, c)
  {
    if a != [] && a[0] == b[0] == c[0] {
      BeforeIsTransitive(a[1..], b[1..], c[1..]);
    }
  }

  lemma {:induction false} BeforeIsTotal(a: string, b: string)
    ensures a == b || Before(a, b) || Before(b, a)
  {
    if a != [] && b != [] && a[0] == b[0] {
      BeforeIsTotal(a[1..], b[1..]);
      assert a == [a[0]] + a[1..] && b == [b[0]] + b[1..];
    }
  }

  /** Texts with heads of equal length compare by head first, then by tail. */
  lemma {:induction false} BeforeByHead(p: string, q: string, a: string, b: string)
    requires |p| == |q|
    ensures Before(p + a, q + b) <==> Before(p, q) || (p == q && Before(a, b))
  {
    if p == [] {
      assert p + a == a && q + b == b;
    } else {
      assert (p + a)[1..] == p[1..] + a && (q + b)[1..] == q[1..] + b;
      BeforeByHead(p[1..], q[1..], a, b);
      assert p == [p[0]] + p[1..] && q == [q[0]] + q[1..];
    }
  }

  /** The characters that `str.strip` removes and that `\s` matches in a `str` pattern. */
  predicate IsSpace(c: char) {
    var n := c as int;
    9 <= n <= 13 || 28 <= n <= 32 || n == 0x85 || n == 0xA0 || n == 0x1680 || 0x2000 <= n <= 0x200A ||
    n == 0x2028 || n == 0x2029 || n == 0x202F || n == 0x205F || n == 0x3000
  }

  /** Stripping the text leaves nothing. */
  predicate Blank(s: string) {
    forall c | c in s :: IsSpace(c)
  }

  predicate NoRepeats<T(==)>(s: seq<T>) {
    forall i, j | 0 <= i < j < |s| :: s[i] != s[j]
  }

  predicate Ascending(s: seq<string>) {
    forall i, j | 0 <= i < j < |s| :: Before(s[i], s[j])
  }

  predicate Least(m: string, ks: set<string>) {
    m in ks && forall k | k in ks :: m == k || Before(m, k)
  }

  lemma {:induction false} LeastExists(ks: set<string>) returns (m: string)
    requires ks != {}
    ensures Least(m, ks)
  {
    var some :| some in ks;
    m := some;
    if ks != {some} {
      var n := LeastExists(ks - {some});
      BeforeIsTotal(some, n);
      if Before(some, n) {
        forall k | k in ks ensures k == some || Before(some, k) {
          if k != some && k != n {
            BeforeIsTransitive(some, n, k);
          }
        }
      } else {
        m := n;
      }
    }
  }

  lemma LeastIsUnique(ks: set<string>)
    requires ks != {}
    ensures exists m :: Least(m, ks)
    ensures forall m, n | Least(m, ks) && Least(n, ks) :: m == n
  {
    var m := LeastExists(ks);
    forall n | Least(n, ks) ensures m == n {
      BeforeIsStrict(m, n);
    }
  }

  /** The elements of a set in ascending order. */
  function InOrder(ks: set<string>): (r: seq<string>)
    ensures Ascending(r)
    ensures forall k :: k in r <==> k in ks
  {
    if ks == {} then [] else
      LeastIsUnique(ks);
      var m :| Least(m, ks);
      [m] + InOrder(ks - {m})
  }

  /* ---------- Sorting a list ---------- */

  function Insert(x: string, s: seq<string>): (r: seq<string>)
    ensures multiset(r) == multiset(s) + multiset{x}
  {
    if s == [] then [x]
    else
      assert s == [s[0]] + s[1..];
      if Before(s[0], x) then [s[0]] + Insert(x, s[1..]) else [x] + s
  }

  /** Python's `sorted`. */
  function Sorted(s: seq<string>): (r: seq<string>)
    ensures multiset(r) == multiset(s)
  {
    if s == [] then []
    else
      assert s == [s[0]] + s[1..];
      Insert(s[0], Sorted(s[1..]))
  }

  lemma {:induction false} InsertKeepsAscending(x: string, s: seq<string>)
    requires Ascending(s) && x !in s
    ensures Ascending(Insert(x, s))
  {
    if s == [] {
    } else {
      BeforeIsTotal(s[0], x);
      if Before(s[0], x) {
        InsertKeepsAscending(x, s[1..]);
        var r := Insert(x, s[1..]);
        assert s == [s[0]] + s[1..];
        forall y | y in r ensures Before(s[0], y) {
          assert y in multiset(r);
          assert y == x || y in s[1..];
        }
      } else {
        assert forall y | y in s[1..] :: Before(s[0], y);
        forall y | y in s ensures Before(x, y) {
          if y != s[0] {
            assert s == [s[0]] + s[1..];
            BeforeIsTransitive(x, s[0], y);
          }
        }
      }
    }
  }

  /** Sorting a list without repeats gives its elements in strictly ascending order. */
  lemma {:induction false} SortedIsAscending(s: seq<string>)
    requires NoRepeats(s)
    ensures Ascending(Sorted(s))
    ensures forall x :: x in Sorted(s) <==> x in s
  {
    if s == [] {
    } else {
      SortedIsAscending(s[1..]);
      assert s == [s[0]] + s[1..];
      InsertKeepsAscending(s[0], Sorted(s[1..]));
    }
    forall x ensures x in Sorted(s) <==> x in s {
      assert x in multiset(Sorted(s)) <==> x in multiset(s);
    }
  }

  lemma Regroup<T>(a: seq<T>, b: seq<T>, c: seq<T>)
    ensures a + (b + c) == a + b + c
  {
  }

  /** Whitespace by code point: what `\s` matches and `strip` removes. */
  lemma WhatIsSpace(c: char)
    ensures IsSpace(c) <==> c as int in {0x09, 0x0A, 0x0B, 0x0C, 0x0D, 0x1C, 0x1D, 0x1E, 0x1F, 0x20, 0x85, 0xA0, 0x1680,
                                         0x2000, 0x2001, 0x2002, 0x2003, 0x2004, 0x2005, 0x2006, 0x2007, 0x2008, 0x2009,
                                         0x200A, 0x2028, 0x2029, 0x202F, 0x205F, 0x3000}
  {
  }

  /** A text is blank exactly if it has no character other than whitespace. */
  lemma WhatIsBlank(s: string)
    ensures Blank("")
    ensures Blank(s) <==> forall i | 0 <= i < |s| :: IsSpace(s[i])
  {
    hide IsSpace;
    assert forall i | 0 <= i < |s| :: s[i] in s;
  }
}
