/** Text helpers shared by every model: the parts of Go's `strings` package the
    toolkit relies on, with the laws the proofs use. */
module Strings {

  datatype Option<+T> = None | Some(value: T)

  datatype Result<+T> = Ok(value: T) | Err(error: string)

  predicate HasPrefix(s: string, prefix: string) {
    prefix <= s
  }

  predicate HasSuffix(s: string, suffix: string) {
    |suffix| <= |s| && s[|s| - |suffix|..] == suffix
  }

  function TrimPrefix(s: string, prefix: string): string {
    if prefix <= s then s[|prefix|..] else s
  }

  function TrimSuffix(s: string, suffix: string): string {
    if HasSuffix(s, suffix) then s[..|s| - |suffix|] else s
  }

  /** `strings.Split` for a one-character separator. */
  function Split(s: string, sep: char): (parts: seq<string>)
    ensures |parts| >= 1
    ensures forall p :: p in parts ==> sep !in p
  {
    if s == "" then [""]
    else if s[0] == sep then [""] + Split(s[1..], sep)
    else
      var rest := Split(s[1..], sep);
      [[s[0]] + rest[0]] + rest[1..]
  }

  /** `strings.Join` for a one-character separator. */
  function Join(parts: seq<string>, sep: char): string {
    if parts == [] then ""
    else if |parts| == 1 then parts[0]
    else parts[0] + [sep] + Join(parts[1..], sep)
  }

  lemma {:induction false} JoinOfSplit(s: string, sep: char)
    ensures Join(Split(s, sep), sep) == s
  {
    if s != "" {
      JoinOfSplit(s[1..], sep);
      var rest := Split(s[1..], sep);
      if s[0] == sep {
        assert ([""] + rest)[1..] == rest;
      } else if |rest| > 1 {
        var parts := [[s[0]] + rest[0]] + rest[1..];
        assert parts[1..] == rest[1..];
      }
    }
  }

  /** A text without the separator splits into itself. */
  lemma {:induction false} SplitAtom(s: string, sep: char)
    requires sep !in s
    ensures Split(s, sep) == [s]
  {
    if s != "" {
      assert s[0] in s && s == [s[0]] + s[1..];
      SplitAtom(s[1..], sep);
    }
  }

  lemma SplitHead(s: string, sep: char)
    requires s != ""
    ensures var rest := Split(s[1..], sep);
      Split(s, sep) == if s[0] == sep then [""] + rest else [[s[0]] + rest[0]] + rest[1..]
  {
  }

  lemma SplitNothing(sep: char)
    ensures Split("", sep) == [""]
  {
  }

  /** Appended text continues the last part. */
  lemma {:induction false} SplitAppend(a: string, b: string, sep: char)
    ensures var x, y := Split(a, sep), Split(b, sep);
      Split(a + b, sep) == x[..|x| - 1] + [x[|x| - 1] + y[0]] + y[1..]
  {
    hide Split;
    var y := Split(b, sep);
    if a == "" {
      SplitNothing(sep);
      assert a + b == b && "" + y[0] == y[0];
      assert y == [y[0]] + y[1..];
    } else {
      assert (a + b)[0] == a[0] && (a + b)[1..] == a[1..] + b;
      SplitAppend(a[1..], b, sep);
      SplitHead(a + b, sep);
      SplitHead(a, sep);
      ExtendHead(Split(a[1..], sep), y, a[0]);
    }
  }

  /** Growing the first part commutes with continuing the last one. */
  lemma ExtendHead(x: seq<string>, y: seq<string>, c: char)
    requires x != [] && y != []
    ensures var joined := x[..|x| - 1] + [x[|x| - 1] + y[0]] + y[1..];
      var x' := [[c] + x[0]] + x[1..];
      && [""] + joined == ([""] + x)[..|x|] + [x[|x| - 1] + y[0]] + y[1..]
      && [[c] + joined[0]] + joined[1..] == x'[..|x| - 1] + [x'[|x| - 1] + y[0]] + y[1..]
  {
    var x' := [[c] + x[0]] + x[1..];
    if |x| == 1 {
      assert [c] + (x[0] + y[0]) == x'[0] + y[0];
    }
  }

  lemma SplitConcat(a: string, b: string, sep: char)
    ensures Split(a + [sep] + b, sep) == Split(a, sep) + Split(b, sep)
  {
    hide Split;
    var x := Split(a, sep);
    assert a + ([sep] + b) == a + [sep] + b && ([sep] + b)[1..] == b;
    SplitHead([sep] + b, sep);
    SplitAppend(a, [sep] + b, sep);
    assert x[|x| - 1] + "" == x[|x| - 1];
  }

  lemma {:induction false} SplitOfJoin(parts: seq<string>, sep: char)
    requires parts != []
    requires forall p :: p in parts ==> sep !in p
    ensures Split(Join(parts, sep), sep) == parts
  {
    SplitAtom(parts[0], sep);
    if |parts| > 1 {
      SplitOfJoin(parts[1..], sep);
      SplitConcat(parts[0], Join(parts[1..], sep), sep);
    }
  }

  lemma {:induction false} JoinConcat(a: seq<string>, b: seq<string>, sep: char)
    requires a != [] && b != []
    ensures Join(a + b, sep) == Join(a, sep) + [sep] + Join(b, sep)
  {
    if |a| == 1 {
      assert (a + b)[1..] == b;
    } else {
      assert (a + b)[1..] == a[1..] + b;
      JoinConcat(a[1..], b, sep);
    }
  }

  /** Byte-wise order of Go strings (`sort.Strings`), read on code points. */
  predicate LessEq(a: string, b: string) {
    if a == "" then true
    else if b == "" then false
    else a[0] < b[0] || (a[0] == b[0] && LessEq(a[1..], b[1..]))
  }

  /** The first difference is at `i`, where `a` has the smaller character. */
  ghost predicate SmallerAt(a: string, b: string, i: int) {
    0 <= i < |a| && i < |b| && a[..i] == b[..i] && a[i] < b[i]
  }

  lemma SmallerTail(a: string, b: string, i: int)
    requires a != "" && b != "" && i > 0
    ensures SmallerAt(a, b, i) <==> a[0] == b[0] && SmallerAt(a[1..], b[1..], i - 1)
  {
    if i < |a| && i < |b| {
      assert a[..i] == [a[0]] + a[1..][..i - 1] && b[..i] == [b[0]] + b[1..][..i - 1];
      assert a[..i][1..] == a[1..][..i - 1] && b[..i][1..] == b[1..][..i - 1];
    }
  }

  /** The order is that of the first differing character, a prefix coming first. */
  lemma {:induction false} LessEqMeans(a: string, b: string)
    ensures LessEq(a, b) <==> a <= b || exists i :: SmallerAt(a, b, i)
  {
    if a != "" && b != "" {
      LessEqMeans(a[1..], b[1..]);
      assert a == [a[0]] + a[1..] && b == [b[0]] + b[1..];
      assert SmallerAt(a, b, 0) <==> a[0] < b[0];
      forall i | i > 0
        ensures SmallerAt(a, b, i) <==> a[0] == b[0] && SmallerAt(a[1..], b[1..], i - 1)
      {
        SmallerTail(a, b, i);
      }
      forall i | SmallerAt(a[1..], b[1..], i) && a[0] == b[0]
        ensures SmallerAt(a, b, i + 1)
      {
        SmallerTail(a, b, i + 1);
      }
    }
  }

  lemma {:induction false} LessEqTotal(a: string, b: string)
    ensures LessEq(a, b) || LessEq(b, a)
    ensures LessEq(a, b) && LessEq(b, a) ==> a == b
  {
    if a != "" && b != "" {
      LessEqTotal(a[1..], b[1..]);
      if a[0] == b[0] && a[1..] == b[1..] {
        assert a == [a[0]] + a[1..];
      }
    }
  }

  lemma {:induction false} LessEqTransitive(a: string, b: string, c: string)
    requires LessEq(a, b) && LessEq(b, c)
    ensures LessEq(a, c)
  {
    if a != "" && b != "" && c != "" && a[0] == b[0] == c[0] {
      LessEqTransitive(a[1..], b[1..], c[1..]);
    }
  }

  /** Strictly ascending: sorted and free of repeats. */
  predicate Ascending(xs: seq<string>) {
    forall i, j :: 0 <= i < j < |xs| ==> LessEq(xs[i], xs[j]) && xs[i] != xs[j]
  }

  predicate Sorted(xs: seq<string>) {
    forall i, j :: 0 <= i < j < |xs| ==> LessEq(xs[i], xs[j])
  }

  /** sort.Strings. */
  function Insert(x: string, xs: seq<string>): seq<string> {
    if xs == [] || LessEq(x, xs[0]) then [x] + xs else [xs[0]] + Insert(x, xs[1..])
  }

  lemma {:induction false} InsertSorts(x: string, xs: seq<string>)
    requires Sorted(xs)
    ensures Sorted(Insert(x, xs)) && multiset(Insert(x, xs)) == multiset(xs) + multiset{x}
  {
    if xs == [] || LessEq(x, xs[0]) {
      forall i | 0 <= i < |xs|
        ensures LessEq(x, xs[i])
      {
        if i > 0 {
          LessEqTransitive(x, xs[0], xs[i]);
        }
      }
    } else {
      InsertSorts(x, xs[1..]);
      LessEqTotal(x, xs[0]);
      var rest := Insert(x, xs[1..]);
      assert xs == [xs[0]] + xs[1..];
      forall i | 0 <= i < |rest|
        ensures LessEq(xs[0], rest[i])
      {
        assert rest[i] in multiset(rest);
        assert rest[i] == x || rest[i] in xs[1..];
      }
    }
  }

  method SortStrings(xs: seq<string>) returns (sorted: seq<string>)
    ensures Sorted(sorted) && multiset(sorted) == multiset(xs)
  {
    sorted := [];
    for i := 0 to |xs|
      invariant Sorted(sorted) && multiset(sorted) == multiset(xs[..i])
    {
      InsertSorts(xs[i], sorted);
      assert xs[..i + 1] == xs[..i] + [xs[i]];
      sorted := Insert(xs[i], sorted);
    }
    assert xs[..|xs|] == xs;
  }

  lemma Twice<T>(xs: seq<T>, i: nat, j: nat)
    requires i < j < |xs| && xs[i] == xs[j]
    ensures multiset(xs)[xs[i]] >= 2
  {
    assert xs == xs[..i] + [xs[i]] + xs[i + 1..j] + [xs[j]] + xs[j + 1..];
  }

  lemma {:induction false} OnceEach<T>(xs: seq<T>, x: T)
    requires forall i, j :: 0 <= i < j < |xs| ==> xs[i] != xs[j]
    ensures multiset(xs)[x] <= 1
  {
    if xs != [] {
      assert xs == [xs[0]] + xs[1..];
      OnceEach(xs[1..], x);
      assert xs[0] !in xs[1..];
    }
  }
}
