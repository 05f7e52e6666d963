/** Python's string order, `sorted` on a list of strings and
    `str.split(sep)`, which `LayerConfig` and `parse_layer_spec` use. */
module Strings {

  /** `a < b` on Python strings: lexicographic by code point, a proper
      prefix first. */
  predicate Less(a: string, b: string)
    decreases |a|
  {
    if a == [] then b != []
    else if b == [] then false
    else if a[0] != b[0] then a[0] < b[0]
    else Less(a[1..], b[1..])
  }

  predicate LessEq(a: string, b: string) { a == b || Less(a, b) }

  lemma {:induction false} LessIrreflexive(a: string)
    ensures !Less(a, a)
    decreases |a|
  {
    if a != [] {
      LessIrreflexive(a[1..]);
    }
  }

  lemma {:induction false} LessTransitive(a: string, b: string, c: string)
    requires Less(a, b) && Less(b, c)
    ensures Less(a, c)
    decreases |a|
  {
    if a != [] && a[0] == b[0] && b[0] == c[0] {
      LessTransitive(a[1..], b[1..], c[1..]);
    }
  }

  lemma {:induction false} LessTotal(a: string, b: string)
    ensures a == b || Less(a, b) || Less(b, a)
    decreases |a|
  {
    if a != [] && b != [] && a[0] == b[0] {
      LessTotal(a[1..], b[1..]);
      if a[1..] == b[1..] {
        assert a == [a[0]] + a[1..] && b == [b[0]] + b[1..];
      }
    }
  }

  lemma LessAsymmetric(a: string, b: string)
    requires Less(a, b)
    ensures !Less(b, a) && a != b
  {
    LessIrreflexive(a);
    if Less(b, a) {
      LessTransitive(a, b, a);
    }
  }

  /** Non-decreasing. */
  ghost predicate Sorted(s: seq<string>)
  {
    forall i, j :: 0 <= i < j < |s| ==> LessEq(s[i], s[j])
  }

  /** Increasing, hence without duplicates. */
  ghost predicate StrictlySorted(s: seq<string>)
  {
    forall i, j :: 0 <= i < j < |s| ==> Less(s[i], s[j])
  }

  /** `x` placed before the first element not less than it. */
  function Insert(x: string, s: seq<string>): (r: seq<string>)
    ensures multiset(r) == multiset(s) + multiset{x}
    ensures forall y :: y in r <==> y == x || y in s
  {
    if s == [] then [x]
    else if Less(s[0], x) then
      assert s == [s[0]] + s[1..];
      [s[0]] + Insert(x, s[1..])
    else [x] + s
  }

  lemma {:induction false} InsertSorted(x: string, s: seq<string>)
    requires Sorted(s)
    ensures Sorted(Insert(x, s))
  {
    if s != [] && Less(s[0], x) {
      InsertSorted(x, s[1..]);
      var r := Insert(x, s[1..]);
      forall j | 0 <= j < |r|
        ensures LessEq(s[0], r[j])
      {
        assert r[j] in r;
        if r[j] != x {
          var k :| 0 <= k < |s[1..]| && s[1..][k] == r[j];
          assert s[k + 1] == r[j];
        }
      }
      SortedCons(s[0], r);
    } else if s != [] {
      LessTotal(s[0], x);
      forall j | 0 <= j < |s|
        ensures LessEq(x, s[j])
      {
        if j > 0 && Less(s[0], s[j]) && x != s[0] {
          LessTransitive(x, s[0], s[j]);
        }
      }
      SortedCons(x, s);
    }
  }

  lemma SortedCons(a: string, r: seq<string>)
    requires Sorted(r) && forall j :: 0 <= j < |r| ==> LessEq(a, r[j])
    ensures Sorted([a] + r)
  {
    var t := [a] + r;
    forall i, j | 0 <= i < j < |t|
      ensures LessEq(t[i], t[j])
    {
      assert t[j] == r[j - 1];
      if i > 0 {
        assert t[i] == r[i - 1];
      }
    }
  }

  /** `sorted(xs)`: the same strings in non-decreasing order. */
  function Sort(xs: seq<string>): (r: seq<string>)
    ensures multiset(r) == multiset(xs) && |r| == |xs|
  {
    if xs == [] then []
    else
      assert xs == [xs[0]] + xs[1..];
      Insert(xs[0], Sort(xs[1..]))
  }

  lemma {:induction false} SortSorted(xs: seq<string>)
    ensures Sorted(Sort(xs))
  {
    if xs != [] {
      SortSorted(xs[1..]);
      InsertSorted(xs[0], Sort(xs[1..]));
    }
  }

  /** A finite non-empty set of strings has a least element. */
  lemma {:induction false} HasLeast(s: set<string>)
    requires s != {}
    ensures exists m :: m in s && forall y :: y in s ==> LessEq(m, y)
    decreases |s|
  {
    var y :| y in s;
    if s - {y} == {} {
      assert s == {y};
      assert forall z :: z in s ==> LessEq(y, z);
    } else {
      HasLeast(s - {y});
      var m :| m in s - {y} && forall z :: z in s - {y} ==> LessEq(m, z);
      LessTotal(m, y);
      if Less(y, m) {
        forall z | z in s
          ensures LessEq(y, z)
        {
          if z != y {
            assert z in s - {y};
            if Less(m, z) {
              LessTransitive(y, m, z);
            }
          }
        }
        assert y in s && forall z :: z in s ==> LessEq(y, z);
      } else {
        forall z | z in s
          ensures LessEq(m, z)
        {
          if z != y {
            assert z in s - {y};
          }
        }
        assert m in s && forall z :: z in s ==> LessEq(m, z);
      }
    }
  }

  /** The strings a list holds. */
  ghost function Elements(s: seq<string>): set<string>
  {
    set x | x in s
  }

  lemma ElementsAppend(a: seq<string>, b: seq<string>)
    ensures Elements(a + b) == Elements(a) + Elements(b)
  {
  }

  /** Two increasing lists with the same elements are the same list, so
      "increasing, with these elements" pins a result down. */
  lemma {:induction false} StrictlySortedUnique(a: seq<string>, b: seq<string>)
    requires StrictlySorted(a) && StrictlySorted(b)
    requires Elements(a) == Elements(b)
    ensures a == b
    decreases |a|
  {
    if a != [] && b != [] {
      assert a[0] in Elements(b);
      assert b[0] in Elements(a);
      var i :| 0 <= i < |b| && b[i] == a[0];
      var j :| 0 <= j < |a| && a[j] == b[0];
      if i > 0 {
        assert Less(b[0], a[0]);
        assert j > 0 ==> Less(a[0], b[0]);
        LessAsymmetric(b[0], a[0]);
      }
      assert a[0] == b[0];
      forall x | x in a[1..]
        ensures x in b[1..]
      {
        var k :| 1 <= k < |a| && a[k] == x;
        assert Less(a[0], x);
        LessAsymmetric(a[0], x);
        assert x in Elements(b);
      }
      forall x | x in b[1..]
        ensures x in a[1..]
      {
        var k :| 1 <= k < |b| && b[k] == x;
        assert Less(b[0], x);
        LessAsymmetric(b[0], x);
        assert x in Elements(a);
      }
      assert Elements(a[1..]) == Elements(b[1..]);
      StrictlySortedUnique(a[1..], b[1..]);
      assert a == [a[0]] + a[1..] && b == [b[0]] + b[1..];
    } else {
      ElementsEmpty(a);
      ElementsEmpty(b);
    }
  }

  lemma ElementsEmpty(s: seq<string>)
    ensures s == [] <==> Elements(s) == {}
  {
    if s != [] {
      assert s[0] in Elements(s);
    }
  }

  /** `s.split(sep)`: the fields between separators; an empty string gives
      one empty field. */
  function Split(s: string, sep: char): (fields: seq<string>)
    ensures |fields| >= 1
    ensures forall i :: 0 <= i < |fields| ==> sep !in fields[i]
  {
    if s == [] then [""]
    else
      var rest := Split(s[1..], sep);
      if s[0] == sep then [""] + rest else [[s[0]] + rest[0]] + rest[1..]
  }

  /** `sep.join(fields)`. */
  function JoinWith(fields: seq<string>, sep: char): string
    requires |fields| >= 1
  {
    if |fields| == 1 then fields[0] else fields[0] + [sep] + JoinWith(fields[1..], sep)
  }

  /** Joining the fields of a split gives back the string. */
  lemma {:induction false} JoinSplit(s: string, sep: char)
    ensures JoinWith(Split(s, sep), sep) == s
  {
    if s != [] {
      var rest := Split(s[1..], sep);
      JoinSplit(s[1..], sep);
      if s[0] == sep {
        assert ([""] + rest)[1..] == rest;
      } else if |rest| == 1 {
        assert s == [s[0]] + s[1..];
      } else {
        var r := [[s[0]] + rest[0]] + rest[1..];
        assert r[1..] == rest[1..];
        assert s == [s[0]] + s[1..];
      }
    }
  }

  /** Text without a separator in front of a string becomes part of the
      string's first field. */
  lemma {:induction false} SplitPrefix(f: string, sep: char, tail: string)
    requires sep !in f
    ensures var t := Split(tail, sep); Split(f + tail, sep) == [f + t[0]] + t[1..]
  {
    if f == [] {
      var t := Split(tail, sep);
      assert f + tail == tail && f + t[0] == t[0] && [t[0]] + t[1..] == t;
    } else {
      assert (f + tail)[0] == f[0] && (f + tail)[1..] == f[1..] + tail;
      assert sep !in f[1..] by {
        assert forall k :: 0 <= k < |f[1..]| ==> f[1..][k] == f[k + 1];
      }
      SplitPrefix(f[1..], sep, tail);
      assert [f[0]] + (f[1..] + Split(tail, sep)[0]) == f + Split(tail, sep)[0];
    }
  }

  /** Splitting joined fields that contain no separator gives back the
      fields. */
  lemma {:induction false} SplitJoin(fields: seq<string>, sep: char)
    requires |fields| >= 1 && forall i :: 0 <= i < |fields| ==> sep !in fields[i]
    ensures Split(JoinWith(fields, sep), sep) == fields
  {
    var f := fields[0];
    if |fields| == 1 {
      SplitPrefix(f, sep, []);
      assert f + [] == f;
    } else {
      var j := JoinWith(fields[1..], sep);
      SplitJoin(fields[1..], sep);
      assert ([sep] + j)[1..] == j;
      var t := Split([sep] + j, sep);
      assert t == [""] + fields[1..];
      assert t[0] == "" && t[1..] == fields[1..] && f + "" == f;
      SplitPrefix(f, sep, [sep] + j);
      assert JoinWith(fields, sep) == f + ([sep] + j);
      assert fields == [f] + fields[1..];
    }
  }
}
