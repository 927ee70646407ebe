/** The order on paths that sorting and ordered maps use: component by component, each by character. */
module Ordering {

  predicate NameLe(a: string, b: string) {
    |a| == 0 || (|b| > 0 && (a[0] < b[0] || (a[0] == b[0] && NameLe(a[1..], b[1..]))))
  }

  predicate NameLt(a: string, b: string) {
    a != b && NameLe(a, b)
  }

  lemma {:induction false} NameLeTotal(a: string, b: string)
    ensures NameLe(a, b) || NameLe(b, a)
  {
    if |a| > 0 && |b| > 0 && a[0] == b[0] {
      NameLeTotal(a[1..], b[1..]);
    }
  }

  lemma {:induction false} NameLeAntisymmetric(a: string, b: string)
    requires NameLe(a, b) && NameLe(b, a)
    ensures a == b
  {
    if |a| > 0 && |b| > 0 {
      NameLeAntisymmetric(a[1..], b[1..]);
      assert a == [a[0]] + a[1..] && b == [b[0]] + b[1..];
    }
  }

  lemma {:induction false} NameLeTransitive(a: string, b: string, c: string)
    requires NameLe(a, b) && NameLe(b, c)
    ensures NameLe(a, c)
  {
    if |a| > 0 && |b| > 0 && |c| > 0 && a[0] == b[0] == c[0] {
      NameLeTransitive(a[1..], b[1..], c[1..]);
    }
  }

  /** A name comes first when it is the other's beginning, or has the lower character where they first differ. */
  lemma {:induction false} NameOrder(a: string, b: string)
    ensures NameLe(a, b) <==>
            a <= b || exists k | 0 <= k < |a| && k < |b| :: a[..k] == b[..k] && a[k] < b[k]
  {
    if |a| > 0 && |b| > 0 && a[0] == b[0] {
      NameOrder(a[1..], b[1..]);
      Common(a, b);
      if k :| 0 <= k < |a[1..]| && k < |b[1..]| && a[1..][..k] == b[1..][..k] && a[1..][k] < b[1..][k] {
        assert a[..k + 1] == [a[0]] + a[1..][..k] && b[..k + 1] == [b[0]] + b[1..][..k];
      }
      if k :| 0 <= k < |a| && k < |b| && a[..k] == b[..k] && a[k] < b[k] {
        assert a[1..][..k - 1] == a[..k][1..] && b[1..][..k - 1] == b[..k][1..];
        assert a[1..][k - 1] == a[k] && b[1..][k - 1] == b[k];
      }
    } else if |a| > 0 && |b| > 0 {
      assert a[..0] == b[..0];
      assert forall k | 0 < k <= |a| && k <= |b| :: a[..k][0] != b[..k][0];
    }
  }

  lemma Common<T>(a: seq<T>, b: seq<T>)
    requires |a| > 0 && |b| > 0 && a[0] == b[0]
    ensures a <= b <==> a[1..] <= b[1..]
  {
    assert a == [a[0]] + a[1..] && b == [b[0]] + b[1..];
  }

  /** Paths compared component by component. */
  predicate PathLe(a: seq<string>, b: seq<string>) {
    |a| == 0 || (|b| > 0 && (NameLt(a[0], b[0]) || (a[0] == b[0] && PathLe(a[1..], b[1..]))))
  }

  predicate PathLt(a: seq<string>, b: seq<string>) {
    a != b && PathLe(a, b)
  }

  /** The same for paths, where names stand for characters. */
  lemma {:induction false} PathOrder(a: seq<string>, b: seq<string>)
    ensures PathLe(a, b) <==>
            a <= b || exists k | 0 <= k < |a| && k < |b| :: a[..k] == b[..k] && a[k] != b[k] && NameLe(a[k], b[k])
  {
    if |a| > 0 && |b| > 0 && a[0] == b[0] {
      PathOrder(a[1..], b[1..]);
      Common(a, b);
      if k :| 0 <= k < |a[1..]| && k < |b[1..]| && a[1..][..k] == b[1..][..k] && a[1..][k] != b[1..][k]
              && NameLe(a[1..][k], b[1..][k]) {
        assert a[..k + 1] == [a[0]] + a[1..][..k] && b[..k + 1] == [b[0]] + b[1..][..k];
        assert a[k + 1] == a[1..][k] && b[k + 1] == b[1..][k];
      }
      if k :| 0 <= k < |a| && k < |b| && a[..k] == b[..k] && a[k] != b[k] && NameLe(a[k], b[k]) {
        assert a[1..][..k - 1] == a[..k][1..] && b[1..][..k - 1] == b[..k][1..];
        assert a[1..][k - 1] == a[k] && b[1..][k - 1] == b[k];
      }
    } else if |a| > 0 && |b| > 0 {
      assert a[..0] == b[..0];
      assert forall k | 0 < k <= |a| && k <= |b| :: a[..k][0] != b[..k][0];
    }
  }

  lemma {:induction false} PathLeTotal(a: seq<string>, b: seq<string>)
    ensures PathLe(a, b) || PathLe(b, a)
  {
    if |a| > 0 && |b| > 0 {
      NameLeTotal(a[0], b[0]);
      if a[0] == b[0] {
        PathLeTotal(a[1..], b[1..]);
      }
    }
  }

  lemma {:induction false} PathLeAntisymmetric(a: seq<string>, b: seq<string>)
    requires PathLe(a, b) && PathLe(b, a)
    ensures a == b
  {
    if |a| > 0 && |b| > 0 {
      if a[0] != b[0] {
        NameLeAntisymmetric(a[0], b[0]);
      }
      PathLeAntisymmetric(a[1..], b[1..]);
      assert a == [a[0]] + a[1..] && b == [b[0]] + b[1..];
    }
  }

  lemma {:induction false} PathLeTransitive(a: seq<string>, b: seq<string>, c: seq<string>)
    requires PathLe(a, b) && PathLe(b, c)
    ensures PathLe(a, c)
  {
    if |a| > 0 && |b| > 0 && |c| > 0 {
      if a[0] == b[0] == c[0] {
        PathLeTransitive(a[1..], b[1..], c[1..]);
      } else {
        NameLtTransitive(a[0], b[0], c[0]);
      }
    }
  }

  lemma NameLtTransitive(a: string, b: string, c: string)
    requires (a == b || NameLt(a, b)) && (b == c || NameLt(b, c))
    ensures a == b == c || NameLt(a, c)
  {
    if NameLt(a, b) && NameLt(b, c) {
      NameLeTransitive(a, b, c);
      if a == c {
        NameLeAntisymmetric(a, b);
      }
    }
  }
}
