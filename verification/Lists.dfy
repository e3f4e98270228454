/**
 The circular doubly linked lists of src/list.h, seen from outside: sequences
 without repetition.  `list_add` prepends, `list_add_tail` appends, `list_del`
 takes an element out wherever it is.
 */
module Lists {

  ghost predicate NoDup<T>(s: seq<T>) { forall i, j :: 0 <= i < j < |s| ==> s[i] != s[j] }

  /** `list_del` */
  function Del<T(==)>(s: seq<T>, x: T): seq<T> {
    if s == [] then [] else if s[0] == x then s[1..] else [s[0]] + Del(s[1..], x)
  }

  lemma {:induction false} DelProps<T>(s: seq<T>, x: T)
    requires NoDup(s)
    ensures NoDup(Del(s, x)) && forall y :: y in Del(s, x) <==> y in s && y != x
    ensures |Del(s, x)| == if x in s then |s| - 1 else |s|
  {
    if s != [] {
      assert NoDup(s[1..]);
      DelProps(s[1..], x);
      assert s == [s[0]] + s[1..];
      if s[0] != x {
        PrependProps(Del(s[1..], x), s[0]);
      }
    }
  }

  lemma {:induction false} PrependProps<T>(s: seq<T>, x: T)
    requires NoDup(s) && x !in s
    ensures NoDup([x] + s) && forall y :: y in [x] + s <==> y == x || y in s
  {
  }

  lemma {:induction false} AppendProps<T>(s: seq<T>, x: T)
    requires NoDup(s) && x !in s
    ensures NoDup(s + [x]) && forall y :: y in s + [x] <==> y == x || y in s
  {
  }

  lemma {:induction false} TailProps<T>(s: seq<T>)
    requires NoDup(s) && s != []
    ensures NoDup(s[1..]) && forall y :: y in s[1..] <==> y in s && y != s[0]
  {
    DelProps(s, s[0]);
    assert Del(s, s[0]) == s[1..];
  }
}
