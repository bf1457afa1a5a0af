/** Types shared by every component of the model. */
module Common {
  datatype Option<+T> = None | Some(value: T)

  /** The concatenation of f over a list. */
  function Flatten<T, U>(s: seq<T>, f: T -> seq<U>): seq<U> {
    if s == [] then [] else Flatten(s[..|s|-1], f) + f(s[|s|-1])
  }

  lemma {:induction false} FlattenMembers<T, U>(s: seq<T>, f: T -> seq<U>, u: U)
    ensures u in Flatten(s, f) <==> exists i :: 0 <= i < |s| && u in f(s[i])
  {
    if s != [] {
      var n := |s| - 1;
      FlattenMembers(s[..n], f, u);
      if u in Flatten(s[..n], f) {
        var i :| 0 <= i < n && u in f(s[..n][i]);
        assert s[i] == s[..n][i];
      }
      if j :| 0 <= j < |s| && u in f(s[j]) {
        assert j < n ==> s[..n][j] == s[j];
      }
    }
  }

  lemma {:induction false} FlattenConcat<T, U>(s: seq<T>, t: seq<T>, f: T -> seq<U>)
    ensures Flatten(s + t, f) == Flatten(s, f) + Flatten(t, f)
  {
    if t == [] {
      assert s + t == s;
    } else {
      var n := |t| - 1;
      FlattenConcat(s, t[..n], f);
      assert (s + t)[..|s + t| - 1] == s + t[..n];
    }
  }

  lemma {:induction false} FlattenSame<T, U>(s: seq<T>, t: seq<T>, f: T -> seq<U>)
    requires |s| == |t| && forall i :: 0 <= i < |s| ==> f(s[i]) == f(t[i])
    ensures Flatten(s, f) == Flatten(t, f)
  {
    if s != [] {
      FlattenSame(s[..|s|-1], t[..|s|-1], f);
    }
  }

  lemma OneOff<T>(a: multiset<T>, b: multiset<T>, x: T)
    requires a + multiset{x} == b + multiset{x}
    ensures a == b
  {
    assert a == a + multiset{x} - multiset{x} && b == b + multiset{x} - multiset{x};
  }

  lemma TakenOut<T>(s: seq<T>, t: seq<T>, j: nat)
    requires s != [] && multiset(s) == multiset(t) && j < |t| && t[j] == s[|s|-1]
    ensures multiset(s[..|s|-1]) == multiset(t[..j] + t[j+1..])
  {
    var x := t[j];
    assert s == s[..|s|-1] + [x];
    assert t == t[..j] + [x] + t[j+1..];
    OneOff(multiset(s[..|s|-1]), multiset(t[..j] + t[j+1..]), x);
  }

  lemma FlattenPull<T, U>(u: seq<T>, x: T, v: seq<T>, f: T -> seq<U>)
    ensures multiset(Flatten(u + [x] + v, f)) == multiset(Flatten(u + v, f)) + multiset(f(x))
  {
    FlattenConcat(u + [x], v, f);
    FlattenConcat(u, v, f);
    assert (u + [x])[..|u|] == u;
  }

  /** Rearranging a list rearranges its image. */
  lemma {:induction false} FlattenRearranged<T, U>(s: seq<T>, t: seq<T>, f: T -> seq<U>)
    requires multiset(s) == multiset(t)
    ensures multiset(Flatten(s, f)) == multiset(Flatten(t, f))
    decreases |s|
  {
    assert |s| == |t| by {
      assert |multiset(s)| == |multiset(t)|;
    }
    if s != [] {
      var x := s[|s|-1];
      assert x in multiset(t);
      var j :| 0 <= j < |t| && t[j] == x;
      TakenOut(s, t, j);
      FlattenRearranged(s[..|s|-1], t[..j] + t[j+1..], f);
      FlattenPull(t[..j], x, t[j+1..], f);
      assert t == t[..j] + [x] + t[j+1..];
    }
  }
}
