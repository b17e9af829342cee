/** `sort.Strings` over the keys of a map: ascending text, each key once. */
module Order {
  import opened Wrappers

  predicate Less(a: string, b: string) {
    if b == "" then false
    else if a == "" then true
    else a[0] < b[0] || (a[0] == b[0] && Less(a[1..], b[1..]))
  }

  /** One text is less than another where they first part, or if it ends there. */
  ghost predicate PartsBelow(a: string, b: string, k: int) {
    0 <= k <= |a| && k < |b| && a[..k] == b[..k] && (k == |a| || a[k] < b[k])
  }

  /** The order is that of Go's strings. */
  lemma {:induction false} LessExactly(a: string, b: string)
    ensures Less(a, b) <==> exists k :: PartsBelow(a, b, k)
  {
    if a == "" || b == "" || a[0] != b[0] {
      assert a[..0] == b[..0];
      assert Less(a, b) ==> PartsBelow(a, b, 0);
      forall k | PartsBelow(a, b, k) ensures k == 0 {}
    } else {
      LessExactly(a[1..], b[1..]);
      forall k: int | k >= 0 ensures PartsBelow(a, b, k + 1) <==> PartsBelow(a[1..], b[1..], k) {
        if k < |a| && k < |b| {
          assert a[..k + 1] == [a[0]] + a[1..][..k] && b[..k + 1] == [b[0]] + b[1..][..k];
          assert a[..k + 1][1..] == a[1..][..k] && b[..k + 1][1..] == b[1..][..k];
        }
      }
      if k :| PartsBelow(a, b, k) {
        assert k > 0;
        assert PartsBelow(a[1..], b[1..], k - 1);
      }
    }
  }

  lemma {:induction false} LessIrreflexive(a: string)
    ensures !Less(a, a)
  {
    if a != "" {
      LessIrreflexive(a[1..]);
    }
  }

  lemma {:induction false} LessTransitive(a: string, b: string, c: string)
    requires Less(a, b) && Less(b, c)
    ensures Less(a, c)
  {
    if a != "" && a[0] == b[0] == c[0] {
      LessTransitive(a[1..], b[1..], c[1..]);
    }
  }

  lemma {:induction false} LessTotal(a: string, b: string)
    ensures Less(a, b) || a == b || Less(b, a)
  {
    if a != "" && b != "" && a[0] == b[0] {
      LessTotal(a[1..], b[1..]);
      assert a == [a[0]] + a[1..] && b == [b[0]] + b[1..];
    }
  }

  ghost predicate Ascending(s: seq<string>) {
    forall i, j | 0 <= i < j < |s| :: Less(s[i], s[j])
  }

  /** Where `x` belongs in an ascending list. */
  function Place(s: seq<string>, x: string): (k: nat)
    ensures k <= |s|
    ensures forall i | 0 <= i < k :: Less(s[i], x)
    ensures k < |s| ==> !Less(s[k], x)
  {
    if s == [] || !Less(s[0], x) then 0 else 1 + Place(s[1..], x)
  }

  lemma InsertAscends(s: seq<string>, x: string)
    requires Ascending(s) && x !in s
    ensures var k := Place(s, x); Ascending(s[..k] + [x] + s[k..])
  {
    var k := Place(s, x);
    forall j | k <= j < |s| ensures Less(x, s[j]) {
      LessTotal(s[k], x);
      if k < j {
        LessTransitive(x, s[k], s[j]);
      }
    }
  }

  lemma InsertKeeps(s: seq<string>, k: nat, x: string, y: string)
    requires k <= |s|
    ensures y in s[..k] + [x] + s[k..] <==> y == x || y in s
  {
    assert s == s[..k] + s[k..];
  }

  method SortedKeys<V>(table: map<string, V>) returns (sorted: seq<string>)
    ensures Ascending(sorted)
    ensures forall x :: x in sorted <==> x in table
  {
    sorted := [];
    var rest := table.Keys;
    while rest != {}
      invariant rest <= table.Keys
      invariant Ascending(sorted)
      invariant forall x :: x in sorted <==> x in table.Keys - rest
      decreases rest
    {
      var x := AnyOf(rest);
      var k := Place(sorted, x);
      InsertAscends(sorted, x);
      forall y {
        InsertKeeps(sorted, k, x, y);
      }
      sorted := sorted[..k] + [x] + sorted[k..];
      rest := rest - {x};
    }
  }
}
