/** Sorting by insertion, under any order that compares like numbers do. */
module Sorting {

  /** `lt` is a strict order under which any two things compare. */
  ghost predicate IsOrder<T(!new)>(lt: (T, T) -> bool) {
    && (forall a, b :: lt(a, b) ==> !lt(b, a))
    && (forall a, b, c :: !lt(b, a) && !lt(c, b) ==> !lt(c, a))
  }

  ghost predicate Ordered<T>(lt: (T, T) -> bool, s: seq<T>) {
    forall i, j :: 0 <= i < j < |s| ==> !lt(s[j], s[i])
  }

  function Insert<T>(lt: (T, T) -> bool, x: T, s: seq<T>): (r: seq<T>) {
    if s == [] || lt(x, s[0]) then [x] + s else [s[0]] + Insert(lt, x, s[1..])
  }

  function Sort<T>(lt: (T, T) -> bool, s: seq<T>): (r: seq<T>) {
    if s == [] then [] else Insert(lt, s[0], Sort(lt, s[1..]))
  }

  lemma {:induction false} InsertSorts<T(!new)>(lt: (T, T) -> bool, x: T, s: seq<T>)
    requires IsOrder(lt) && Ordered(lt, s)
    ensures Ordered(lt, Insert(lt, x, s)) && multiset(Insert(lt, x, s)) == multiset{x} + multiset(s)
  {
    if s == [] {
    } else if lt(x, s[0]) {
      forall j | 0 <= j < |s| ensures !lt(s[j], x) {
        if j > 0 { assert !lt(s[j], s[0]) && !lt(s[0], x); }
      }
    } else {
      InsertSorts(lt, x, s[1..]);
      var rest := Insert(lt, x, s[1..]);
      assert s == [s[0]] + s[1..];
      forall j | 0 <= j < |rest| ensures !lt(rest[j], s[0]) {
        assert rest[j] in multiset(rest);
        assert rest[j] == x || rest[j] in s[1..];
      }
    }
  }

  /** The result is ordered, with the same elements. */
  lemma {:induction false} SortSorts<T(!new)>(lt: (T, T) -> bool, s: seq<T>)
    requires IsOrder(lt)
    ensures Ordered(lt, Sort(lt, s)) && multiset(Sort(lt, s)) == multiset(s)
  {
    hide IsOrder, Ordered;
    if s == [] {
      Nothing(lt);
    } else {
      SortSorts(lt, s[1..]);
      InsertSorts(lt, s[0], Sort(lt, s[1..]));
      assert s == [s[0]] + s[1..];
    }
  }

  lemma Nothing<T>(lt: (T, T) -> bool)
    ensures Ordered(lt, [])
  {
  }
}
