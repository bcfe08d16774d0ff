/** What several modules share. */
module Common {

  datatype Option<T> = None | Some(value: T)

  function Min(a: nat, b: nat): nat { if a <= b then a else b }

  ghost predicate NoDuplicates<T>(s: seq<T>) {
    forall i, j :: 0 <= i < j < |s| ==> s[i] != s[j]
  }

  ghost function Elements<T>(s: seq<T>): set<T> {
    set x | x in s
  }

  lemma NoDuplicatesSnoc<T>(s: seq<T>, x: T)
    requires NoDuplicates(s) && x !in s
    ensures NoDuplicates(s + [x])
    ensures Elements(s + [x]) == Elements(s) + {x}
  {
  }

  lemma {:induction false} NoDuplicatesBounded<T>(s: seq<T>, u: set<T>)
    requires NoDuplicates(s) && Elements(s) <= u
    ensures |s| <= |u|
    ensures Elements(s) == u <==> |s| == |u|
    decreases |s|
  {
    if s == [] {
    } else {
      var rest, last := s[..|s| - 1], s[|s| - 1];
      assert Elements(s) == Elements(rest) + {last};
      NoDuplicatesBounded(rest, u - {last});
    }
  }

  // Where the last element of `a` is in a permutation of `a`, and what is left without it.
  lemma FindLast<T>(a: seq<T>, b: seq<T>) returns (k: nat)
    requires multiset(a) == multiset(b) && a != []
    ensures k < |b| && b[k] == a[|a| - 1]
    ensures multiset(a[..|a| - 1]) == multiset(b[..k] + b[k + 1..])
  {
    var init, last := a[..|a| - 1], a[|a| - 1];
    assert a == init + [last];
    assert last in multiset(b);
    k :| 0 <= k < |b| && b[k] == last;
    assert b == b[..k] + [last] + b[k + 1..];
    assert multiset(b[..k] + b[k + 1..]) == multiset(b) - multiset{last};
    assert multiset(init) == multiset(a) - multiset{last};
  }
}
