/** Lists without repetition, and taking elements out of them. */
module Lists {

  datatype Option<+T> = None | Some(value: T)

  predicate NoDup(s: seq<nat>) {
    forall i, j :: 0 <= i < j < |s| ==> s[i] != s[j]
  }

  lemma NoDupAppend(a: seq<nat>, b: seq<nat>)
    requires NoDup(a) && NoDup(b) && forall x :: x in a ==> x !in b
    ensures NoDup(a + b)
  {
    forall i, j | 0 <= i < j < |a + b| ensures (a + b)[i] != (a + b)[j] {
      if i < |a| <= j {
        assert a[i] in a && b[j - |a|] in b;
      }
    }
  }

  function IndexOf(s: seq<nat>, x: nat): (i: nat)
    requires x in s
    ensures i < |s| && s[i] == x
  {
    if s[0] == x then 0 else
      assert s == [s[0]] + s[1..];
      1 + IndexOf(s[1..], x)
  }

  function Minus(s: seq<nat>, x: nat): (r: seq<nat>)
    ensures x !in r
    ensures forall y :: y in r <==> y in s && y != x
  {
    if s == [] then [] else if s[0] == x then Minus(s[1..], x) else [s[0]] + Minus(s[1..], x)
  }

  lemma {:induction false} MinusNoDup(s: seq<nat>, x: nat)
    requires NoDup(s)
    ensures NoDup(Minus(s, x))
  {
    if s != [] {
      MinusNoDup(s[1..], x);
      if s[0] != x {
        forall y | y in s[1..] ensures y != s[0] {}
        NoDupAppend([s[0]], Minus(s[1..], x));
      }
    }
  }

  lemma {:induction false} MinusLength(s: seq<nat>, x: nat)
    requires NoDup(s)
    ensures |Minus(s, x)| == |s| - if x in s then 1 else 0
  {
    if s != [] {
      MinusLength(s[1..], x);
      assert s == [s[0]] + s[1..];
      if s[0] == x {
        assert x !in s[1..];
      }
    }
  }

  lemma {:induction false} MinusAbsent(s: seq<nat>, x: nat)
    requires x !in s
    ensures Minus(s, x) == s
  {
    if s != [] {
      MinusAbsent(s[1..], x);
    }
  }

  lemma {:induction false} MinusAppend(a: seq<nat>, b: seq<nat>, x: nat)
    ensures Minus(a + b, x) == Minus(a, x) + Minus(b, x)
  {
    if a == [] {
      assert a + b == b;
    } else {
      MinusAppend(a[1..], b, x);
      assert (a + b)[1..] == a[1..] + b;
      assert [a[0]] + (Minus(a[1..], x) + Minus(b, x)) == ([a[0]] + Minus(a[1..], x)) + Minus(b, x);
    }
  }

  lemma MinusLast(s: seq<nat>)
    requires NoDup(s) && s != []
    ensures Minus(s, s[|s| - 1]) == s[..|s| - 1]
  {
    var a, x := s[..|s| - 1], s[|s| - 1];
    hide Minus;
    assert s == a + [x] && x !in a;
    MinusAppend(a, [x], x);
    MinusAbsent(a, x);
    MinusOnly(x);
    assert a + [] == a;
  }

  lemma MinusOnly(x: nat)
    ensures Minus([x], x) == []
  {
  }

  lemma PushNoDup(s: seq<nat>, x: nat)
    requires NoDup(s) && x !in s
    ensures NoDup([x] + s)
  {
    NoDupAppend([x], s);
  }

  /** list without the nodes in gone. */
  function Keep(list: seq<nat>, gone: set<nat>): seq<nat> {
    if list == [] then [] else if list[0] in gone then Keep(list[1..], gone) else [list[0]] + Keep(list[1..], gone)
  }

  lemma {:induction false} KeepMinus(list: seq<nat>, gone: set<nat>, x: nat)
    ensures Keep(list, gone + {x}) == Minus(Keep(list, gone), x)
  {
    if list != [] {
      KeepMinus(list[1..], gone, x);
      if list[0] !in gone {
        assert ([list[0]] + Keep(list[1..], gone))[1..] == Keep(list[1..], gone);
      }
    }
  }

  lemma {:induction false} KeepNone(list: seq<nat>, gone: set<nat>)
    ensures (forall x :: x in list ==> x in gone) ==> Keep(list, gone) == []
    ensures (forall x :: x in list ==> x !in gone) ==> Keep(list, gone) == list
  {
    if list != [] {
      KeepNone(list[1..], gone);
      assert list[0] in list;
    }
  }

  lemma {:induction false} KeepMember(list: seq<nat>, gone: set<nat>, x: nat)
    ensures x in Keep(list, gone) <==> x in list && x !in gone
  {
    if list != [] {
      KeepMember(list[1..], gone, x);
    }
  }
}
