/** Filtering sequences, and collecting what their elements contribute. */
module Sequences {

  function Keep<T>(s: seq<T>, keep: T -> bool): seq<T> {
    if s == [] then []
    else Keep(s[..|s| - 1], keep) + (if keep(s[|s| - 1]) then [s[|s| - 1]] else [])
  }

  lemma {:induction false} KeepMembers<T>(s: seq<T>, keep: T -> bool, x: T)
    ensures x in Keep(s, keep) <==> x in s && keep(x)
  {
    if s != [] {
      KeepMembers(s[..|s| - 1], keep, x);
      assert s == s[..|s| - 1] + [s[|s| - 1]];
    }
  }

  lemma {:induction false} SameKeep<T>(s: seq<T>, p: T -> bool, q: T -> bool)
    requires forall x | x in s :: p(x) == q(x)
    ensures Keep(s, p) == Keep(s, q)
  {
    if s != [] {
      SameKeep(s[..|s| - 1], p, q);
    }
  }

  lemma {:induction false} KeepsNone<T>(s: seq<T>, p: T -> bool)
    requires forall x | x in s :: !p(x)
    ensures Keep(s, p) == []
  {
    if s != [] {
      KeepsNone(s[..|s| - 1], p);
    }
  }

  lemma {:induction false} KeepCounts<T>(s: seq<T>, p: T -> bool, x: T)
    ensures multiset(Keep(s, p))[x] == if p(x) then multiset(s)[x] else 0
  {
    if s != [] {
      KeepCounts(s[..|s| - 1], p, x);
      assert s == s[..|s| - 1] + [s[|s| - 1]];
    }
  }

  lemma KeepNext<T>(s: seq<T>, p: T -> bool, x: T)
    ensures Keep(s + [x], p) == Keep(s, p) + (if p(x) then [x] else [])
  {
    assert (s + [x])[..|s|] == s;
  }

  lemma {:induction false} KeepJoin<T>(s: seq<T>, t: seq<T>, p: T -> bool)
    ensures Keep(s + t, p) == Keep(s, p) + Keep(t, p)
  {
    if t == [] {
      assert s + t == s;
    } else {
      KeepJoin(s, t[..|t| - 1], p);
      assert (s + t)[..|s + t| - 1] == s + t[..|t| - 1];
    }
  }

  lemma {:induction false} KeepFirst<T>(s: seq<T>, p: T -> bool)
    requires s != [] && p(s[0])
    ensures Keep(s, p) != [] && Keep(s, p)[0] == s[0]
  {
    if |s| > 1 {
      KeepFirst(s[..|s| - 1], p);
    }
  }

  function Discard<T>(s: seq<T>, discard: T -> bool): seq<T> {
    if s == [] then []
    else Discard(s[..|s| - 1], discard) + (if discard(s[|s| - 1]) then [] else [s[|s| - 1]])
  }

  lemma {:induction false} DiscardMembers<T>(s: seq<T>, discard: T -> bool, x: T)
    ensures x in Discard(s, discard) <==> x in s && !discard(x)
  {
    if s != [] {
      DiscardMembers(s[..|s| - 1], discard, x);
      assert s == s[..|s| - 1] + [s[|s| - 1]];
    }
  }

  lemma {:induction false} KeepAndDiscard<T>(s: seq<T>, p: T -> bool)
    ensures multiset(Keep(s, p)) + multiset(Discard(s, p)) == multiset(s)
  {
    if s != [] {
      var init, last := s[..|s| - 1], s[|s| - 1];
      KeepAndDiscard(init, p);
      assert s == init + [last];
      assert multiset(s) == multiset(init) + multiset{last};
      if p(last) {
        assert Keep(s, p) == Keep(init, p) + [last] && Discard(s, p) == Discard(init, p);
      } else {
        assert Keep(s, p) == Keep(init, p) && Discard(s, p) == Discard(init, p) + [last];
      }
    }
  }

  lemma SameElements<T>(a: seq<T>, b: seq<T>)
    requires multiset(a) == multiset(b)
    ensures |a| == |b|
    ensures forall x :: x in a <==> x in b
  {
    assert |multiset(a)| == |multiset(b)|;
    forall x
      ensures x in a <==> x in b
    {
      assert x in a <==> x in multiset(a);
      assert x in b <==> x in multiset(b);
    }
  }

  /** What the elements contribute, in order. */
  function Gather<A, B>(s: seq<A>, f: A -> seq<B>): seq<B> {
    if s == [] then [] else Gather(s[..|s| - 1], f) + f(s[|s| - 1])
  }

  lemma GatherNext<A, B>(s: seq<A>, f: A -> seq<B>, x: A)
    ensures Gather(s + [x], f) == Gather(s, f) + f(x)
  {
    assert (s + [x])[..|s|] == s;
  }

  lemma {:induction false} GatherJoin<A, B>(s: seq<A>, more: seq<A>, f: A -> seq<B>)
    ensures Gather(s + more, f) == Gather(s, f) + Gather(more, f)
  {
    if more == [] {
      assert s + more == s;
    } else {
      var init, last := more[..|more| - 1], more[|more| - 1];
      calc {
        Gather(s + more, f);
        { assert s + more == (s + init) + [last]; }
        Gather((s + init) + [last], f);
        { GatherNext(s + init, f, last); }
        Gather(s + init, f) + f(last);
        { GatherJoin(s, init, f); }
        (Gather(s, f) + Gather(init, f)) + f(last);
        Gather(s, f) + (Gather(init, f) + f(last));
        { GatherNext(init, f, last); assert more == init + [last]; }
        Gather(s, f) + Gather(more, f);
      }
    }
  }

  lemma GatherWithout<A, B>(s: seq<A>, f: A -> seq<B>, i: nat) returns (rest: seq<A>)
    requires i < |s|
    ensures multiset(s) == multiset(rest) + multiset{s[i]} && |rest| == |s| - 1
    ensures multiset(Gather(s, f)) == multiset(Gather(rest, f)) + multiset(f(s[i]))
  {
    var before, after := s[..i], s[i + 1..];
    rest := before + after;
    assert s == (before + [s[i]]) + after;
    GatherJoin(before + [s[i]], after, f);
    GatherNext(before, f, s[i]);
    GatherJoin(before, after, f);
  }

  /** Reordering the elements reorders what they contribute. */
  lemma {:induction false} GatherFollows<A, B>(s: seq<A>, t: seq<A>, f: A -> seq<B>)
    requires multiset(s) == multiset(t)
    ensures multiset(Gather(s, f)) == multiset(Gather(t, f))
    decreases |s|
  {
    SameElements(s, t);
    if s != [] {
      assert s[0] in t;
      var j :| 0 <= j < |t| && t[j] == s[0];
      var a := GatherWithout(s, f, 0);
      var b := GatherWithout(t, f, j);
      assert multiset(a) == multiset(s) - multiset{s[0]} == multiset(b);
      GatherFollows(a, b, f);
    }
  }

  function KeptBy<T>(p: T -> bool): T -> seq<T> {
    x => if p(x) then [x] else []
  }

  lemma {:induction false} KeepIsGather<T>(s: seq<T>, p: T -> bool)
    ensures Keep(s, p) == Gather(s, KeptBy(p))
  {
    if s != [] {
      KeepIsGather(s[..|s| - 1], p);
    }
  }

  lemma KeepPermutes<T>(s: seq<T>, t: seq<T>, p: T -> bool)
    requires multiset(s) == multiset(t)
    ensures multiset(Keep(s, p)) == multiset(Keep(t, p))
  {
    KeepIsGather(s, p);
    KeepIsGather(t, p);
    GatherFollows(s, t, KeptBy(p));
  }

  lemma {:induction false} ContributorOf<A, B>(s: seq<A>, f: A -> seq<B>, y: B) returns (i: nat)
    requires y in Gather(s, f)
    ensures i < |s| && y in f(s[i])
  {
    if y in Gather(s[..|s| - 1], f) {
      i := ContributorOf(s[..|s| - 1], f, y);
    } else {
      i := |s| - 1;
    }
  }

  /** When elements contribute at most one thing each, every order of the contributions comes from an arrangement. */
  lemma {:induction false} Arrange<A, B>(s: seq<A>, f: A -> seq<B>, order: seq<B>) returns (arranged: seq<A>)
    requires multiset(order) == multiset(Gather(s, f))
    requires forall i | 0 <= i < |s| :: |f(s[i])| <= 1
    ensures multiset(arranged) == multiset(s) && Gather(arranged, f) == order
    decreases |order|
  {
    SameElements(order, Gather(s, f));
    if order == [] {
      arranged := s;
    } else {
      var init, last := order[..|order| - 1], order[|order| - 1];
      assert order == init + [last];
      var i := ContributorOf(s, f, last);
      assert f(s[i]) == [last];
      var rest := GatherWithout(s, f, i);
      forall j | 0 <= j < |rest|
        ensures |f(rest[j])| <= 1
      {
        assert rest[j] in multiset(s);
      }
      assert multiset(init) == multiset(order) - multiset{last};
      var front := Arrange(rest, f, init);
      arranged := front + [s[i]];
      GatherNext(front, f, s[i]);
    }
  }

  lemma GatherFront<A, B>(s: seq<A>, f: A -> seq<B>)
    requires s != []
    ensures Gather(s, f) == f(s[0]) + Gather(s[1..], f)
  {
    assert s == [s[0]] + s[1..];
    GatherJoin([s[0]], s[1..], f);
    assert [s[0]][..0] == [];
    assert Gather([s[0]], f) == f(s[0]);
  }

  /** No code word of an allowed element begins another: what follows it can be told apart. */
  ghost predicate IsPrefixCode<A(!new), B(!new)>(f: A -> seq<B>, allowed: A -> bool) {
    forall a, b, x, y | allowed(a) && allowed(b) && f(a) + x == f(b) + y :: a == b && x == y
  }

  /** Lists of the same length are told apart by their codes put together. */
  lemma {:induction false} PrefixCodeDetermines<A(!new), B(!new)>(s: seq<A>, t: seq<A>, f: A -> seq<B>,
                                                  allowed: A -> bool)
    requires IsPrefixCode(f, allowed)
    requires |s| == |t| && Gather(s, f) == Gather(t, f)
    requires forall i | 0 <= i < |s| :: allowed(s[i]) && allowed(t[i])
    ensures s == t
  {
    if s != [] {
      GatherFront(s, f);
      GatherFront(t, f);
      assert f(s[0]) + Gather(s[1..], f) == f(t[0]) + Gather(t[1..], f);
      PrefixCodeDetermines(s[1..], t[1..], f, allowed);
      assert s == [s[0]] + s[1..] && t == [t[0]] + t[1..];
    }
  }
}
