/** How many members of a list there are of a kind. */
module Counting {
  function Positions<T>(s: seq<T>, p: T -> bool): set<int> { set i | 0 <= i < |s| && p(s[i]) }

  function Count<T>(s: seq<T>, p: T -> bool): nat { |Positions(s, p)| }

  lemma CountNothing<T>(p: T -> bool)
    ensures Count([], p) == 0
  {
  }

  lemma CountOneMore<T>(s: seq<T>, x: T, p: T -> bool)
    ensures Count(s + [x], p) == Count(s, p) + if p(x) then 1 else 0
  {
    hide Positions;
    PositionsGrow(s, x, p);
    NotYet(s, p);
  }

  lemma PositionsGrow<T>(s: seq<T>, x: T, p: T -> bool)
    ensures Positions(s + [x], p) == if p(x) then Positions(s, p) + {|s|} else Positions(s, p)
  {
    var t := s + [x];
    forall i ensures i in Positions(t, p) <==> i in Positions(s, p) || (i == |s| && p(x)) {
      if 0 <= i < |s| {
        assert t[i] == s[i];
      }
    }
  }

  lemma NotYet<T>(s: seq<T>, p: T -> bool)
    ensures |s| !in Positions(s, p)
  {
  }

  lemma {:induction false} CountAppend<T>(a: seq<T>, b: seq<T>, p: T -> bool)
    ensures Count(a + b, p) == Count(a, p) + Count(b, p)
  {
    hide Count;
    if b == [] {
      CountNothing(p);
      assert a + b == a;
    } else {
      var n := |b| - 1;
      CountAppend(a, b[..n], p);
      CountOneMore(b[..n], b[n], p);
      CountOneMore(a + b[..n], b[n], p);
      assert b == b[..n] + [b[n]] && a + b == a + b[..n] + [b[n]];
    }
  }

  lemma CountFirst<T>(x: T, s: seq<T>, p: T -> bool)
    ensures Count([x] + s, p) == Count(s, p) + if p(x) then 1 else 0
  {
    CountAppend([x], s, p);
    CountOneMore([], x, p);
    CountNothing(p);
    assert [] + [x] == [x];
  }
}
