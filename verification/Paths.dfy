/** Paths as sequences of components, their order, and sorting. */
module Paths {

  import opened Common

  type Path = seq<string>

  // ----- Orders ---------------------------------------------------------------------------

  ghost predicate TotalPreorder<T(!new)>(le: (T, T) -> bool) {
    && (forall x, y :: le(x, y) || le(y, x))
    && (forall x, y, z :: le(x, y) && le(y, z) ==> le(x, z))
  }

  ghost predicate TotalOrder<T(!new)>(le: (T, T) -> bool) {
    TotalPreorder(le) && forall x, y :: le(x, y) && le(y, x) ==> x == y
  }

  /** The dictionary order that an order of elements induces on sequences. */
  predicate Lex<T(==)>(le: (T, T) -> bool, a: seq<T>, b: seq<T>) {
    a == [] || (b != [] && if a[0] == b[0] then Lex(le, a[1..], b[1..]) else le(a[0], b[0]))
  }

  predicate CharLe(a: char, b: char) { a <= b }
  predicate StringLe(a: string, b: string) { Lex(CharLe, a, b) }
  predicate PathLe(a: Path, b: Path) { Lex(StringLe, a, b) }

  lemma {:induction false} LexConnected<T(!new)>(le: (T, T) -> bool, a: seq<T>, b: seq<T>)
    requires TotalOrder(le)
    ensures Lex(le, a, b) || Lex(le, b, a)
    decreases |a|
  {
    if a != [] && b != [] && a[0] == b[0] {
      LexConnected(le, a[1..], b[1..]);
    }
  }

  lemma {:induction false} LexAntisymmetric<T(!new)>(le: (T, T) -> bool, a: seq<T>, b: seq<T>)
    requires TotalOrder(le) && Lex(le, a, b) && Lex(le, b, a)
    ensures a == b
    decreases |a|
  {
    if a != [] && b != [] {
      if a[0] == b[0] {
        LexAntisymmetric(le, a[1..], b[1..]);
        assert a == [a[0]] + a[1..] && b == [b[0]] + b[1..];
      }
    }
  }

  lemma {:induction false} LexTransitive<T(!new)>(le: (T, T) -> bool, a: seq<T>, b: seq<T>, c: seq<T>)
    requires TotalOrder(le) && Lex(le, a, b) && Lex(le, b, c)
    ensures Lex(le, a, c)
    decreases |a|
  {
    if a != [] {
      if a[0] == b[0] == c[0] {
        LexTransitive(le, a[1..], b[1..], c[1..]);
      } else if a[0] != b[0] && b[0] != c[0] {
        assert le(a[0], c[0]);
      }
    }
  }

  lemma LexTotalOrder<T(!new)>(le: (T, T) -> bool)
    requires TotalOrder(le)
    ensures TotalOrder((a: seq<T>, b: seq<T>) => Lex(le, a, b))
  {
    forall a: seq<T>, b: seq<T> ensures Lex(le, a, b) || Lex(le, b, a) { LexConnected(le, a, b); }
    forall a: seq<T>, b: seq<T> | Lex(le, a, b) && Lex(le, b, a) ensures a == b { LexAntisymmetric(le, a, b); }
    forall a: seq<T>, b: seq<T>, c: seq<T> | Lex(le, a, b) && Lex(le, b, c) ensures Lex(le, a, c) {
      LexTransitive(le, a, b, c);
    }
  }

  lemma PathOrder()
    ensures TotalOrder(PathLe)
  {
    LexTotalOrder(CharLe);
    var byChar := (a: string, b: string) => Lex(CharLe, a, b);
    forall a: string, b: string ensures StringLe(a, b) == byChar(a, b) { }
    assert TotalOrder(StringLe);
    LexTotalOrder(StringLe);
    var byString := (a: Path, b: Path) => Lex(StringLe, a, b);
    forall a: Path, b: Path ensures PathLe(a, b) == byString(a, b) { }
  }

  // ----- The order, spelled out -----------------------------------------------------------------

  /** One sequence goes on where the other ends, or they differ first where its element is the lesser. */
  ghost predicate Precedes<T>(less: (T, T) -> bool, a: seq<T>, b: seq<T>, i: nat) {
    i <= |a| && i < |b| && a[..i] == b[..i] && (i == |a| || less(a[i], b[i]))
  }

  lemma {:induction false} LexSpelled<T(!new)>(le: (T, T) -> bool, less: (T, T) -> bool, a: seq<T>, b: seq<T>)
    requires forall x, y :: less(x, y) <==> le(x, y) && x != y
    ensures Lex(le, a, b) <==> a == b || exists i: nat :: Precedes(less, a, b, i)
    decreases |a|
  {
    if a == [] {
      assert b != [] ==> Precedes(less, a, b, 0);
    } else if b == [] {
    } else if a[0] == b[0] {
      LexSpelled(le, less, a[1..], b[1..]);
      assert a == [a[0]] + a[1..] && b == [b[0]] + b[1..];
      if i: nat :| Precedes(less, a[1..], b[1..], i) {
        assert a[..i + 1] == [a[0]] + a[1..][..i] && b[..i + 1] == [b[0]] + b[1..][..i];
        assert Precedes(less, a, b, i + 1);
      }
      if i: nat :| Precedes(less, a, b, i) {
        assert i > 0;
        assert a[1..][..i - 1] == a[..i][1..] && b[1..][..i - 1] == b[..i][1..];
        assert Precedes(less, a[1..], b[1..], i - 1);
      }
    } else {
      if le(a[0], b[0]) { assert Precedes(less, a, b, 0); }
      if i: nat :| Precedes(less, a, b, i) {
        SamePrefixSameHead(a, b, i);
      }
    }
  }

  lemma SamePrefixSameHead<T>(a: seq<T>, b: seq<T>, i: nat)
    requires i <= |a| && i <= |b| && a[..i] == b[..i]
    ensures i > 0 ==> a[0] == b[0]
  {
    assert i > 0 ==> a[..i][0] == a[0] && b[..i][0] == b[0];
  }

  predicate CharBefore(a: char, b: char) { a as int < b as int }

  ghost predicate NameBefore(a: string, b: string) { exists i: nat :: Precedes(CharBefore, a, b, i) }

  ghost predicate PathBefore(a: Path, b: Path) {
    exists i: nat :: i <= |a| && i < |b| && a[..i] == b[..i] && (i == |a| || NameBefore(a[i], b[i]))
  }

  lemma NameOrderSpelled(a: string, b: string)
    ensures StringLe(a, b) <==> a == b || NameBefore(a, b)
  {
    LexSpelled(CharLe, CharBefore, a, b);
  }

  /** Paths are ordered component by component, components character by character by code, and what is
      a prefix comes first. */
  lemma PathOrderSpelled(a: Path, b: Path)
    ensures PathLe(a, b) <==> a == b || PathBefore(a, b)
  {
    var less: (string, string) -> bool := (x, y) => StringLe(x, y) && x != y;
    LexSpelled(StringLe, less, a, b);
    forall x, y ensures less(x, y) <==> NameBefore(x, y) {
      NameOrderSpelled(x, y);
      if x == y { NoNameBeforeItself(x); }
    }
    if i: nat :| Precedes(less, a, b, i) {
      assert i <= |a| && i < |b| && a[..i] == b[..i] && (i == |a| || NameBefore(a[i], b[i]));
    }
    if i: nat :| i <= |a| && i < |b| && a[..i] == b[..i] && (i == |a| || NameBefore(a[i], b[i])) {
      assert Precedes(less, a, b, i);
    }
  }

  lemma NoNameBeforeItself(a: string)
    ensures !NameBefore(a, a)
  {
  }

  /** What lies between two entries of one directory lies under that directory. */
  lemma {:induction false} BetweenSiblings(d: Path, a: string, b: string, x: Path)
    requires PathLe(d + [a], x) && PathLe(x, d + [b])
    ensures |d| < |x| && x[..|d|] == d
    decreases |d|
  {
    PathOrder();
    assert x != [];
    if d == [] {
    } else {
      var l, r := d + [a], d + [b];
      assert l[0] == d[0] == r[0];
      StringOrder();
      assert StringLe(d[0], x[0]) && StringLe(x[0], d[0]);
      assert l[1..] == d[1..] + [a] && r[1..] == d[1..] + [b];
      BetweenSiblings(d[1..], a, b, x[1..]);
      assert x == [x[0]] + x[1..] && d == [d[0]] + d[1..];
    }
  }

  lemma StringOrder()
    ensures TotalOrder(StringLe)
  {
    LexTotalOrder(CharLe);
    var byChar := (a: string, b: string) => Lex(CharLe, a, b);
    forall a: string, b: string ensures StringLe(a, b) == byChar(a, b) { }
  }

  // ----- Sorting --------------------------------------------------------------------------

  ghost predicate Sorted<T>(le: (T, T) -> bool, xs: seq<T>) {
    forall i, j :: 0 <= i < j < |xs| ==> le(xs[i], xs[j])
  }

  function Insert<T>(le: (T, T) -> bool, x: T, xs: seq<T>): (ys: seq<T>)
    ensures |ys| == |xs| + 1
  {
    if xs == [] || le(x, xs[0]) then [x] + xs else [xs[0]] + Insert(le, x, xs[1..])
  }

  function Sort<T>(le: (T, T) -> bool, xs: seq<T>): (ys: seq<T>)
    ensures |ys| == |xs|
  {
    if xs == [] then [] else Insert(le, xs[0], Sort(le, xs[1..]))
  }

  lemma {:induction false} InsertContents<T>(le: (T, T) -> bool, x: T, xs: seq<T>)
    ensures multiset(Insert(le, x, xs)) == multiset(xs) + multiset{x}
    decreases |xs|
  {
    if xs != [] && !le(x, xs[0]) {
      InsertContents(le, x, xs[1..]);
      assert xs == [xs[0]] + xs[1..];
    }
  }

  lemma {:induction false} InsertSorted<T(!new)>(le: (T, T) -> bool, x: T, xs: seq<T>)
    requires TotalPreorder(le) && Sorted(le, xs)
    ensures Sorted(le, Insert(le, x, xs))
    decreases |xs|
  {
    if xs != [] && !le(x, xs[0]) {
      var rest := Insert(le, x, xs[1..]);
      InsertSorted(le, x, xs[1..]);
      InsertContents(le, x, xs[1..]);
      forall j | 0 <= j < |rest| ensures le(xs[0], rest[j]) {
        assert rest[j] in multiset(rest);
        assert rest[j] == x || rest[j] in xs[1..];
      }
    } else if xs != [] {
      forall j | 0 <= j < |xs| ensures le(x, xs[j]) {
        assert j > 0 ==> le(xs[0], xs[j]);
      }
    }
  }

  /** Sorting yields the same elements in order. */
  lemma {:induction false} SortSorts<T(!new)>(le: (T, T) -> bool, xs: seq<T>)
    requires TotalPreorder(le)
    ensures Sorted(le, Sort(le, xs)) && multiset(Sort(le, xs)) == multiset(xs)
    decreases |xs|
  {
    if xs != [] {
      SortSorts(le, xs[1..]);
      InsertSorted(le, xs[0], Sort(le, xs[1..]));
      InsertContents(le, xs[0], Sort(le, xs[1..]));
      assert xs == [xs[0]] + xs[1..];
    }
  }

  lemma {:induction false} InsertDistinct<T>(le: (T, T) -> bool, x: T, xs: seq<T>)
    requires Distinct(xs) && x !in xs
    ensures Distinct(Insert(le, x, xs))
    decreases |xs|
  {
    if xs != [] && !le(x, xs[0]) {
      InsertDistinct(le, x, xs[1..]);
      InsertContents(le, x, xs[1..]);
      var rest := Insert(le, x, xs[1..]);
      forall j | 0 <= j < |rest| ensures xs[0] != rest[j] {
        assert rest[j] in multiset(rest);
      }
    }
  }

  lemma {:induction false} SortDistinct<T(!new)>(le: (T, T) -> bool, xs: seq<T>)
    requires TotalPreorder(le) && Distinct(xs)
    ensures Distinct(Sort(le, xs))
    decreases |xs|
  {
    if xs != [] {
      SortDistinct(le, xs[1..]);
      SortSorts(le, xs[1..]);
      assert xs[0] !in multiset(xs[1..]);
      assert forall y :: y in Sort(le, xs[1..]) ==> y in multiset(Sort(le, xs[1..]));
      InsertDistinct(le, xs[0], Sort(le, xs[1..]));
    }
  }

  // ----- Splitting and joining --------------------------------------------------------------

  function Split(s: string, sep: char): (parts: seq<string>)
    ensures |parts| >= 1
  {
    if s == "" then [""]
    else
      var rest := Split(s[1..], sep);
      if s[0] == sep then [""] + rest else [[s[0]] + rest[0]] + rest[1..]
  }

  function Join(parts: seq<string>, sep: char): string
    requires |parts| >= 1
  {
    if |parts| == 1 then parts[0] else parts[0] + [sep] + Join(parts[1..], sep)
  }

  /** Joining the parts gives the string back, and no part holds a separator. */
  lemma {:induction false} JoinSplit(s: string, sep: char)
    ensures Join(Split(s, sep), sep) == s
    ensures forall i :: 0 <= i < |Split(s, sep)| ==> sep !in Split(s, sep)[i]
    decreases |s|
  {
    if s != "" {
      JoinSplit(s[1..], sep);
      var rest := Split(s[1..], sep);
      var parts := Split(s, sep);
      assert s == [s[0]] + s[1..];
      if s[0] == sep {
        assert parts[1..] == rest;
      } else {
        assert parts[1..] == rest[1..];
        assert sep !in rest[0];
      }
    }
  }

  /** A string without separators stays whole. */
  lemma {:induction false} SplitWhole(s: string, sep: char)
    requires sep !in s
    ensures Split(s, sep) == [s]
    decreases |s|
  {
    if s != "" {
      SplitWhole(s[1..], sep);
      assert s == [s[0]] + s[1..];
    }
  }

  /** Two parts joined by one separator split into those two. */
  lemma {:induction false} SplitPair(a: string, b: string, sep: char)
    requires sep !in a && sep !in b
    ensures Split(a + [sep] + b, sep) == [a, b]
    decreases |a|
  {
    var s := a + [sep] + b;
    if a == "" {
      assert s[1..] == b;
      SplitWhole(b, sep);
    } else {
      assert s[1..] == a[1..] + [sep] + b;
      SplitPair(a[1..], b, sep);
      assert a == [a[0]] + a[1..];
    }
  }

  /** The part before the first separator is split off. */
  lemma {:induction false} SplitFirst(a: string, rest: string, sep: char)
    requires sep !in a
    ensures Split(a + [sep] + rest, sep) == [a] + Split(rest, sep)
    decreases |a|
  {
    var s := a + [sep] + rest;
    if a == "" {
      assert s[1..] == rest;
    } else {
      assert s[1..] == a[1..] + [sep] + rest;
      SplitFirst(a[1..], rest, sep);
      assert a == [a[0]] + a[1..];
    }
  }
}
