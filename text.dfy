/** Python string operations the viewer depends on, written out: `str.strip()`,
    substring containment (`needle in hay`), the code-point order Python uses
    to compare strings, and `sorted()` applied to a set of strings. */
module Text {

  /** Python's `str.isspace()` for one character: the Unicode characters of
      category Zs or of bidirectional class WS, B or S. */
  predicate IsSpace(c: char)
  {
    var n := c as int;
    (9 <= n <= 13) || (0x1C <= n <= 0x20) || n == 0x85 || n == 0xA0 || n == 0x1680
    || (0x2000 <= n <= 0x200A) || n == 0x2028 || n == 0x2029 || n == 0x202F
    || n == 0x205F || n == 0x3000
  }

  predicate AllSpace(s: string)
  {
    forall i :: 0 <= i < |s| ==> IsSpace(s[i])
  }

  /** Number of whitespace characters at the front of `s`. */
  function Lead(s: string): (k: nat)
    ensures k <= |s|
    ensures forall i :: 0 <= i < k ==> IsSpace(s[i])
    ensures k < |s| ==> !IsSpace(s[k])
  {
    if s != [] && IsSpace(s[0]) then 1 + Lead(s[1..]) else 0
  }

  /** Python's `s.strip()`: `s` without its leading and trailing whitespace,
      taken off one character at a time. */
  function Strip(s: string): string
    decreases |s|
  {
    if s == [] then []
    else if IsSpace(s[0]) then Strip(s[1..])
    else if IsSpace(s[|s| - 1]) then Strip(s[..|s| - 1])
    else s
  }

  /** The stripped text is the slice of `s` starting at `Lead(s)`, everything
      of `s` outside that slice is whitespace, and the result neither starts
      nor ends with whitespace. */
  lemma StripSpec(s: string)
    ensures var r := Strip(s);
      && |r| <= |s| - Lead(s)
      && r == s[Lead(s)..Lead(s) + |r|]
      && (forall i :: 0 <= i < |s| && !(Lead(s) <= i < Lead(s) + |r|) ==> IsSpace(s[i]))
      && (r == [] || (!IsSpace(r[0]) && !IsSpace(r[|r| - 1])))
  {
    StripIsSlice(s);
    StripDropsOnlySpace(s);
    StripEndsNotSpace(s);
  }

  /** Once the first character is not whitespace, stripping only takes
      characters off the end. */
  lemma LeadOfTrimmed(s: string)
    requires |s| >= 2 && !IsSpace(s[0])
    ensures Lead(s) == 0 && Lead(s[..|s| - 1]) == 0
  {
    assert s[..|s| - 1][0] == s[0];
  }

  lemma {:induction false} StripIsSlice(s: string)
    ensures |Strip(s)| <= |s| - Lead(s)
    ensures Strip(s) == s[Lead(s)..Lead(s) + |Strip(s)|]
    decreases |s|
  {
    if s == [] {
    } else if IsSpace(s[0]) {
      var t := s[1..];
      StripIsSlice(t);
      assert Lead(s) == 1 + Lead(t);
      assert t[Lead(t)..Lead(t) + |Strip(t)|] == s[Lead(s)..Lead(s) + |Strip(t)|];
    } else if IsSpace(s[|s| - 1]) {
      var u := s[..|s| - 1];
      LeadOfTrimmed(s);
      StripIsSlice(u);
      assert u[..|Strip(u)|] == s[..|Strip(u)|];
    } else {
      assert Lead(s) == 0;
    }
  }

  lemma {:induction false} StripDropsOnlySpace(s: string)
    ensures forall i :: 0 <= i < |s| && !(Lead(s) <= i < Lead(s) + |Strip(s)|) ==> IsSpace(s[i])
    decreases |s|
  {
    var r := Strip(s);
    if s == [] {
    } else if IsSpace(s[0]) {
      var t := s[1..];
      StripDropsOnlySpace(t);
      assert Lead(s) == 1 + Lead(t);
      forall i | 1 <= i < |s| && !(Lead(s) <= i < Lead(s) + |r|)
        ensures IsSpace(s[i])
      {
        assert s[i] == t[i - 1];
      }
    } else if IsSpace(s[|s| - 1]) {
      var u := s[..|s| - 1];
      LeadOfTrimmed(s);
      StripDropsOnlySpace(u);
      StripIsSlice(u);
      forall i | 0 <= i < |s| - 1 && !(0 <= i < |r|)
        ensures IsSpace(s[i])
      {
        assert s[i] == u[i];
      }
    } else {
      assert Lead(s) == 0;
    }
  }

  lemma {:induction false} StripEndsNotSpace(s: string)
    ensures var r := Strip(s); r == [] || (!IsSpace(r[0]) && !IsSpace(r[|r| - 1]))
    decreases |s|
  {
    if s == [] {
    } else if IsSpace(s[0]) {
      StripEndsNotSpace(s[1..]);
    } else if IsSpace(s[|s| - 1]) {
      StripEndsNotSpace(s[..|s| - 1]);
    }
  }

  /** A line is blank for the loader exactly when it is all whitespace. */
  lemma StripEmptyIffBlank(s: string)
    ensures Strip(s) == [] <==> AllSpace(s)
  {
    StripSpec(s);
    if Strip(s) != [] {
      assert !IsSpace(s[Lead(s)]);
    }
  }

  /** Python's `needle in hay` on strings (the empty needle occurs in every string). */
  predicate IsSubstring(needle: string, hay: string)
  {
    exists i :: 0 <= i <= |hay| && needle <= hay[i..]
  }

  /** `a < b` in Python's order on strings: lexicographic by code point, a
      proper prefix coming first. */
  predicate Below(a: string, b: string)
  {
    if a == [] then b != []
    else if b == [] then false
    else if a[0] == b[0] then Below(a[1..], b[1..])
    else a[0] < b[0]
  }

  lemma {:induction false} BelowIrreflexive(a: string)
    ensures !Below(a, a)
  {
    if a != [] {
      BelowIrreflexive(a[1..]);
    }
  }

  lemma {:induction false} BelowTransitive(a: string, b: string, c: string)
    requires Below(a, b) && Below(b, c)
    ensures Below(a, c)
  {
    if a != [] && b != [] && c != [] && a[0] == b[0] && b[0] == c[0] {
      BelowTransitive(a[1..], b[1..], c[1..]);
    }
  }

  /** Any two distinct strings are ordered one way or the other. */
  lemma {:induction false} BelowTotal(a: string, b: string)
    ensures a == b || Below(a, b) || Below(b, a)
  {
    if a != [] && b != [] && a[0] == b[0] {
      BelowTotal(a[1..], b[1..]);
      if a[1..] == b[1..] {
        assert a == [a[0]] + a[1..] && b == [b[0]] + b[1..];
      }
    }
  }

  predicate StrictlySorted(s: seq<string>)
  {
    forall i, j :: 0 <= i < j < |s| ==> Below(s[i], s[j])
  }

  /** `m` is the least element of `s`. */
  predicate IsLeast(m: string, s: set<string>)
  {
    m in s && forall x :: x in s && x != m ==> Below(m, x)
  }

  /** Every non-empty finite set of strings has a least element. */
  lemma {:induction false} LeastExists(s: set<string>)
    requires s != {}
    ensures exists m :: IsLeast(m, s)
  {
    var y :| y in s;
    if s == {y} {
      assert IsLeast(y, s);
    } else {
      LeastExists(s - {y});
      var m :| IsLeast(m, s - {y});
      BelowTotal(m, y);
      if Below(y, m) {
        forall x | x in s && x != y
          ensures Below(y, x)
        {
          if x != m {
            BelowTransitive(y, m, x);
          }
        }
        assert IsLeast(y, s);
      } else {
        assert IsLeast(m, s);
      }
    }
  }

  /** `r` lists, in increasing order, the keys that are not in `rest`, and
      each of them is below every key still in `rest`. */
  ghost predicate SortedSoFar(r: seq<string>, keys: set<string>, rest: set<string>)
  {
    && rest <= keys
    && (forall x :: x in r <==> x in keys && x !in rest)
    && StrictlySorted(r)
    && (forall i, x :: 0 <= i < |r| && x in rest ==> Below(r[i], x))
    && |r| == |keys - rest|
  }

  lemma SortStep(r: seq<string>, keys: set<string>, rest: set<string>, m: string)
    requires SortedSoFar(r, keys, rest) && IsLeast(m, rest)
    ensures SortedSoFar(r + [m], keys, rest - {m})
  {
    assert keys - (rest - {m}) == (keys - rest) + {m};
    assert m !in keys - rest;
    var r' := r + [m];
    forall i, j | 0 <= i < j < |r'|
      ensures Below(r'[i], r'[j])
    {
      if j == |r| {
        assert r'[i] == r[i];
      } else {
        assert r'[i] == r[i] && r'[j] == r[j];
      }
    }
    forall i, x | 0 <= i < |r'| && x in rest - {m}
      ensures Below(r'[i], x)
    {
      if i < |r| {
        assert r'[i] == r[i];
      }
    }
  }

  /** Python's `sorted(keys)` for a set of strings: the keys once each, in
      increasing order. */
  method SortKeys(keys: set<string>) returns (r: seq<string>)
    ensures StrictlySorted(r)
    ensures forall x :: x in r <==> x in keys
    ensures |r| == |keys|
  {
    r := [];
    var rest := keys;
    while rest != {}
      invariant SortedSoFar(r, keys, rest)
      decreases |rest|
    {
      LeastExists(rest);
      var m :| IsLeast(m, rest);
      SortStep(r, keys, rest, m);
      r := r + [m];
      rest := rest - {m};
    }
    assert keys - rest == keys;
  }

  /** A strictly sorted sequence is determined by its elements, so the order
      of `sorted()` depends on the key set alone. */
  lemma {:induction false} SortedUnique(a: seq<string>, b: seq<string>)
    requires StrictlySorted(a) && StrictlySorted(b)
    requires forall x :: x in a <==> x in b
    ensures a == b
  {
    if a != [] {
      assert a[0] in a;
    }
    if b != [] {
      assert b[0] in b;
    }
    if a != [] && b != [] {
      assert a[0] in b && b[0] in a;
      if a[0] != b[0] {
        var i :| 0 <= i < |b| && b[i] == a[0];
        var j :| 0 <= j < |a| && a[j] == b[0];
        assert Below(b[0], a[0]) && Below(a[0], b[0]);
        BelowTransitive(a[0], b[0], a[0]);
        BelowIrreflexive(a[0]);
      }
      forall x
        ensures x in a[1..] <==> x in b[1..]
      {
        if x in a[1..] {
          var i :| 1 <= i < |a| && a[i] == x;
          assert Below(a[0], x);
          if x == a[0] { BelowIrreflexive(x); }
          assert x in b;
        }
        if x in b[1..] {
          var i :| 1 <= i < |b| && b[i] == x;
          assert Below(b[0], x);
          if x == b[0] { BelowIrreflexive(x); }
          assert x in a;
        }
      }
      SortedUnique(a[1..], b[1..]);
      assert a == [a[0]] + a[1..] && b == [b[0]] + b[1..];
    }
  }
}
