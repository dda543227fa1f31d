/** The order of text keys, by code point, and the keys of a set in that order. */
module KeyOrder {

  predicate Leq(a: string, b: string) {
    a == [] || (b != [] && (a[0] < b[0] || (a[0] == b[0] && Leq(a[1..], b[1..]))))
  }

  /** The order is that of the first code point that differs, and a prefix comes
      first. */
  lemma {:induction false} LeqExactly(a: string, b: string)
    ensures Leq(a, b) <==> a <= b || exists i :: 0 <= i < |a| && i < |b| && a[..i] == b[..i] && a[i] < b[i]
  {
    if a != [] && b != [] {
      if a[0] == b[0] {
        var c, d := a[1..], b[1..];
        LeqExactly(c, d);
        assert a == [a[0]] + c && b == [b[0]] + d;
        if i :| 0 <= i < |c| && i < |d| && c[..i] == d[..i] && c[i] < d[i] {
          assert a[..i + 1] == [a[0]] + c[..i] && b[..i + 1] == [b[0]] + d[..i];
          assert a[i + 1] < b[i + 1];
        }
        if i :| 0 <= i < |a| && i < |b| && a[..i] == b[..i] && a[i] < b[i] {
          assert c[..i - 1] == a[..i][1..] && d[..i - 1] == b[..i][1..];
          assert c[i - 1] < d[i - 1];
        }
      } else if a[0] < b[0] {
        assert a[..0] == b[..0];
      } else if i :| 0 <= i < |a| && i < |b| && a[..i] == b[..i] && a[i] < b[i] {
        assert i > 0 ==> a[..i][0] == b[..i][0];
      }
    }
  }

  lemma {:induction false} LeqTotal(a: string, b: string)
    ensures Leq(a, b) || Leq(b, a)
    ensures Leq(a, b) && Leq(b, a) ==> a == b
  {
    if a != [] && b != [] && a[0] == b[0] {
      LeqTotal(a[1..], b[1..]);
      assert a == [a[0]] + a[1..] && b == [b[0]] + b[1..];
    }
  }

  lemma {:induction false} LeqTransitive(a: string, b: string, c: string)
    requires Leq(a, b) && Leq(b, c)
    ensures Leq(a, c)
  {
    if a != [] && a[0] == b[0] == c[0] {
      LeqTransitive(a[1..], b[1..], c[1..]);
    }
  }

  predicate IsLeast(k: string, s: set<string>) {
    k in s && forall j :: j in s ==> Leq(k, j)
  }

  lemma {:induction false} LeastExists(s: set<string>) returns (k: string)
    requires s != {}
    ensures IsLeast(k, s)
    decreases |s|
  {
    var j :| j in s;
    LeqTotal(j, j);
    if s == {j} {
      k := j;
    } else {
      var rest := s - {j};
      assert rest != {};
      k := LeastExists(rest);
      LeqTotal(j, k);
      if Leq(j, k) {
        forall i | i in s ensures Leq(j, i) {
          if i != j {
            LeqTransitive(j, k, i);
          }
        }
        k := j;
      }
    }
  }

  /** The keys of a set in ascending order, each once. */
  function SortedKeys(s: set<string>): (keys: seq<string>)
    ensures forall k :: k in keys <==> k in s
    ensures forall i, j :: 0 <= i < j < |keys| ==> keys[i] != keys[j] && Leq(keys[i], keys[j])
    decreases |s|
  {
    if s == {} then []
    else
      assert exists k :: IsLeast(k, s) by { var k := LeastExists(s); }
      assert forall j, k :: IsLeast(j, s) && IsLeast(k, s) ==> j == k by {
        forall j, k | IsLeast(j, s) && IsLeast(k, s) ensures j == k { LeqTotal(j, k); }
      }
      var k :| k in s && IsLeast(k, s);
      [k] + SortedKeys(s - {k})
  }
}
