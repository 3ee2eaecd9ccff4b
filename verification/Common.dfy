/** Datatypes and small arithmetic shared by the models. */
module Common {

  datatype Option<+T> = None | Some(value: T)

  type Byte = x: int | 0 <= x < 256
  type Bytes = seq<Byte>

  function Min(a: int, b: int): int {
    if a < b then a else b
  }

  function Max(a: int, b: int): int {
    if a > b then a else b
  }

  lemma MulStep(k: int, x: int)
    ensures (k + 1) * x == k * x + x
  {
  }

  lemma MulMonotone(a: int, b: int, c: int)
    requires a <= b && 0 <= c
    ensures a * c <= b * c
  {
    assert 0 <= (b - a) * c;
  }

  const TWO_32 := 0x1_0000_0000
  const MAX_INT32 := 0x7fff_ffff

  /** int32 wrap-around. */
  function WrapInt32(x: int): (r: int)
    ensures -MAX_INT32 - 1 <= r <= MAX_INT32
    ensures -MAX_INT32 - 1 <= x <= MAX_INT32 ==> r == x
  {
    (x + 0x8000_0000) % TWO_32 - 0x8000_0000
  }

  lemma SubsetSize<T>(a: set<T>, b: set<T>)
    requires a <= b
    ensures |b| == |a| + |b - a|
    ensures |a| <= |b|
    ensures |a| == |b| ==> a == b
  {
    assert b == a + (b - a);
  }

  /** Sum of a sequence of counters. */
  function Sum(s: seq<nat>): nat {
    if s == [] then 0 else Sum(s[..|s| - 1]) + s[|s| - 1]
  }

  lemma {:induction false} SumUpdate(s: seq<nat>, i: nat, v: nat)
    requires i < |s|
    ensures Sum(s[i := v]) == Sum(s) - s[i] + v
  {
    var last := |s| - 1;
    if i == last {
      assert s[i := v][..last] == s[..last];
    } else {
      assert s[i := v][..last] == s[..last][i := v];
      SumUpdate(s[..last], i, v);
    }
  }

  lemma {:induction false} SumMonotone(a: seq<nat>, b: seq<nat>)
    requires |a| == |b|
    requires forall i :: 0 <= i < |a| ==> a[i] <= b[i]
    ensures Sum(a) <= Sum(b)
  {
    if a != [] {
      SumMonotone(a[..|a| - 1], b[..|b| - 1]);
    }
  }

  lemma {:induction false} SumBounds(s: seq<nat>, i: nat)
    requires i < |s|
    ensures s[i] <= Sum(s)
  {
    if i < |s| - 1 {
      SumBounds(s[..|s| - 1], i);
    }
  }

  /** Two pointwise ordered sequences have the same sum only if they are equal. */
  lemma {:induction false} SumEqual(a: seq<nat>, b: seq<nat>)
    requires |a| == |b|
    requires forall i :: 0 <= i < |a| ==> a[i] <= b[i]
    requires Sum(a) == Sum(b)
    ensures a == b
  {
    if a != [] {
      SumMonotone(a[..|a| - 1], b[..|b| - 1]);
      SumEqual(a[..|a| - 1], b[..|b| - 1]);
      assert a[|a| - 1] == b[|b| - 1];
      assert a == a[..|a| - 1] + [a[|a| - 1]] == b[..|b| - 1] + [b[|b| - 1]] == b;
    }
  }

  lemma {:induction false} SumZeros(s: seq<nat>)
    requires forall i :: 0 <= i < |s| ==> s[i] == 0
    ensures Sum(s) == 0
  {
    if s != [] {
      SumZeros(s[..|s| - 1]);
    }
  }
}

/** Names joined by a separator, and when two pairs of names join to one text. */
module Joining {

  function Join(a: string, sep: char, b: string): string {
    a + [sep] + b
  }

  /** The separator of the first pair comes earlier, so that `m` changes sides. */
  ghost predicate Shifted(a: string, b: string, c: string, d: string, sep: char) {
    exists m :: c == a + [sep] + m && b == m + [sep] + d
  }

  /** Two pairs join alike exactly if they are equal or a separator inside a name can be read as the one between. */
  lemma JoinSameIff(a: string, b: string, c: string, d: string, sep: char)
    ensures Join(a, sep, b) == Join(c, sep, d) <==>
            (a == c && b == d) || Shifted(a, b, c, d, sep) || Shifted(c, d, a, b, sep)
  {
    if Join(a, sep, b) == Join(c, sep, d) {
      if |a| == |c| {
        SameCut(a, b, c, d, sep);
      } else if |a| < |c| {
        EarlierCut(a, b, c, d, sep);
      } else {
        EarlierCut(c, d, a, b, sep);
      }
    }
    if Shifted(a, b, c, d, sep) {
      ShiftedJoins(a, b, c, d, sep);
    }
    if Shifted(c, d, a, b, sep) {
      ShiftedJoins(c, d, a, b, sep);
    }
  }

  lemma SameCut(a: string, b: string, c: string, d: string, sep: char)
    requires Join(a, sep, b) == Join(c, sep, d) && |a| == |c|
    ensures a == c && b == d
  {
    var whole := Join(a, sep, b);
    assert a == whole[..|a|] == c;
    assert b == whole[|a| + 1..] == d;
  }

  lemma EarlierCut(a: string, b: string, c: string, d: string, sep: char)
    requires Join(a, sep, b) == Join(c, sep, d) && |a| < |c|
    ensures Shifted(a, b, c, d, sep)
  {
    var whole, m := Join(a, sep, b), c[|a| + 1..];
    assert c == whole[..|c|];
    assert c == a + [sep] + m;
    assert b == whole[|a| + 1..] == m + [sep] + d;
  }

  lemma ShiftedJoins(a: string, b: string, c: string, d: string, sep: char)
    requires Shifted(a, b, c, d, sep)
    ensures Join(a, sep, b) == Join(c, sep, d)
  {
    var m :| c == a + [sep] + m && b == m + [sep] + d;
    assert a + [sep] + (m + [sep] + d) == (a + [sep] + m) + [sep] + d;
  }

  lemma ShiftedContains(a: string, b: string, c: string, d: string, sep: char)
    requires Shifted(a, b, c, d, sep)
    ensures sep in b && sep in c
  {
    var m :| c == a + [sep] + m && b == m + [sep] + d;
    assert c[|a|] == sep && b[|m|] == sep;
  }

  /** First names without the separator, or second names without it, can be told apart. */
  lemma JoinUnique(a: string, b: string, c: string, d: string, sep: char)
    requires (sep !in a && sep !in c) || (sep !in b && sep !in d)
    ensures Join(a, sep, b) == Join(c, sep, d) <==> a == c && b == d
  {
    JoinSameIff(a, b, c, d, sep);
    if Shifted(a, b, c, d, sep) {
      ShiftedContains(a, b, c, d, sep);
    }
    if Shifted(c, d, a, b, sep) {
      ShiftedContains(c, d, a, b, sep);
    }
  }
}

/** Sequences with the same elements. */
module Permutations {

  ghost predicate DistinctBy<T, K>(s: seq<T>, key: T -> K) {
    forall i, j :: 0 <= i < j < |s| ==> key(s[i]) != key(s[j])
  }

  lemma TwiceInMultiset<T>(s: seq<T>, i: nat, j: nat)
    requires i < j < |s| && s[i] == s[j]
    ensures multiset(s)[s[i]] >= 2
  {
    assert s == s[..i] + [s[i]] + s[i + 1..j] + [s[j]] + s[j + 1..];
  }

  lemma OnceInMultiset<T, K>(s: seq<T>, key: T -> K, p: nat)
    requires DistinctBy(s, key) && p < |s|
    ensures multiset(s)[s[p]] == 1
  {
    assert s == s[..p] + [s[p]] + s[p + 1..];
    assert s[p] !in s[..p] && s[p] !in s[p + 1..];
  }

  /** Rearranging elements with distinct keys leaves the keys distinct. */
  lemma DistinctPermutes<T, K>(a: seq<T>, b: seq<T>, key: T -> K)
    requires multiset(a) == multiset(b) && DistinctBy(a, key)
    ensures DistinctBy(b, key)
  {
    forall i, j | 0 <= i < j < |b|
      ensures key(b[i]) != key(b[j])
    {
      if key(b[i]) == key(b[j]) {
        assert b[i] in multiset(b) && b[j] in multiset(b);
        var p :| 0 <= p < |a| && a[p] == b[i];
        var q :| 0 <= q < |a| && a[q] == b[j];
        assert p == q;
        TwiceInMultiset(b, i, j);
        OnceInMultiset(a, key, p);
      }
    }
  }

  /** The last element of `a` sits somewhere in its rearrangement `b`; without it the rest still match. */
  lemma RemoveLast<T>(a: seq<T>, b: seq<T>) returns (i: nat)
    requires multiset(a) == multiset(b) && a != []
    ensures i < |b| && b[i] == a[|a| - 1]
    ensures b == b[..i] + [b[i]] + b[i + 1..]
    ensures multiset(a[..|a| - 1]) == multiset(b[..i] + b[i + 1..])
  {
    var last := a[|a| - 1];
    assert last in multiset(a);
    i :| 0 <= i < |b| && b[i] == last;
    assert a == a[..|a| - 1] + [last];
    assert b == b[..i] + [last] + b[i + 1..];
    assert multiset(a[..|a| - 1]) == multiset(a) - multiset{last};
    assert multiset(b[..i] + b[i + 1..]) == multiset(b) - multiset{last};
  }
}

/** Element-wise images. */
module Mapping {
  import opened Permutations

  function Apply<T, U>(s: seq<T>, f: T -> U): (r: seq<U>)
    ensures |r| == |s|
    ensures forall i :: 0 <= i < |s| ==> r[i] == f(s[i])
  {
    seq(|s|, i requires 0 <= i < |s| => f(s[i]))
  }

  lemma ApplySplit<T, U>(a: seq<T>, b: seq<T>, f: T -> U)
    ensures Apply(a + b, f) == Apply(a, f) + Apply(b, f)
  {
  }

  lemma {:induction false} ApplyPermutes<T, U>(a: seq<T>, b: seq<T>, f: T -> U)
    requires multiset(a) == multiset(b)
    ensures multiset(Apply(a, f)) == multiset(Apply(b, f))
    decreases |a|
  {
    if a == [] {
      assert |multiset(b)| == |b|;
    } else {
      var i := RemoveLast(a, b);
      var front, last := a[..|a| - 1], a[|a| - 1];
      ApplyPermutes(front, b[..i] + b[i + 1..], f);
      assert a == front + [last];
      ApplySplit(front, [last], f);
      ApplySplit(b[..i], b[i + 1..], f);
      ApplySplit(b[..i] + [b[i]], b[i + 1..], f);
      ApplySplit(b[..i], [b[i]], f);
    }
  }
}

/** Go's sort.Slice: callers learn only that the result is a sorted permutation,
    so what they prove holds however ties are broken. */
module Sorting {

  ghost predicate Descending<T>(s: seq<T>, key: T -> real) {
    forall i, j :: 0 <= i < j < |s| ==> key(s[i]) >= key(s[j])
  }

  /** Placing x between the keys above it and the keys below it keeps the order. */
  lemma SplitDescending<T>(a: seq<T>, x: T, b: seq<T>, key: T -> real)
    requires Descending(a, key) && Descending(b, key)
    requires forall i :: 0 <= i < |a| ==> key(a[i]) >= key(x)
    requires forall i :: 0 <= i < |b| ==> key(x) >= key(b[i])
    ensures Descending(a + [x] + b, key)
  {
    var q := a + [x] + b;
    forall i, j | 0 <= i < j < |q|
      ensures key(q[i]) >= key(q[j])
    {
      if j < |a| {
        assert q[i] == a[i] && q[j] == a[j];
      } else if i > |a| {
        assert q[i] == b[i - |a| - 1] && q[j] == b[j - |a| - 1];
      } else if j == |a| {
        assert q[i] == a[i] && q[j] == x;
      } else {
        assert q[j] == b[j - |a| - 1];
        assert i < |a| ==> q[i] == a[i];
        assert i == |a| ==> q[i] == x;
      }
    }
  }

  method InsertSorted<T>(r: seq<T>, x: T, key: T -> real) returns (q: seq<T>)
    requires Descending(r, key)
    ensures multiset(q) == multiset(r) + multiset{x}
    ensures Descending(q, key)
  {
    var at := 0;
    while at < |r| && key(r[at]) >= key(x)
      invariant 0 <= at <= |r|
      invariant forall i :: 0 <= i < at ==> key(r[i]) >= key(x)
    {
      at := at + 1;
    }
    SplitDescending(r[..at], x, r[at..], key);
    InsertKeepsElements(r, at, x);
    q := r[..at] + [x] + r[at..];
  }

  lemma InsertKeepsElements<T>(r: seq<T>, at: nat, x: T)
    requires at <= |r|
    ensures multiset(r[..at] + [x] + r[at..]) == multiset(r) + multiset{x}
  {
    assert r == r[..at] + r[at..];
  }

  method SortSlice<T>(s: seq<T>, key: T -> real) returns (r: seq<T>)
    ensures multiset(r) == multiset(s)
    ensures |r| == |s|
    ensures Descending(r, key)
  {
    r := [];
    for n := 0 to |s|
      invariant multiset(r) == multiset(s[..n])
      invariant Descending(r, key)
    {
      r := InsertSorted(r, s[n], key);
      assert s[..n + 1] == s[..n] + [s[n]];
    }
    assert s[..|s|] == s;
    assert |r| == |multiset(r)| && |s| == |multiset(s)|;
  }
}
