/** Helpers over sequences and over JavaScript records, which the model
    keeps as ordered key/value lists (the order `Object.keys` reports). */
module Collections {

  /** The keys of a record, in order. */
  function Keys<V>(r: seq<(string, V)>): (ks: seq<string>)
    ensures |ks| == |r| && forall i :: 0 <= i < |r| ==> ks[i] == r[i].0
  {
    seq(|r|, i requires 0 <= i < |r| => r[i].0)
  }

  /** `transformEntries(record, f)`: the record with the same keys, in the same
      order, each value replaced by `f(value, key)`. */
  function TransformEntries<A, B>(r: seq<(string, A)>, f: (A, string) -> B): (t: seq<(string, B)>)
    ensures Keys(t) == Keys(r)
    ensures forall i :: 0 <= i < |r| ==> t[i].1 == f(r[i].1, r[i].0)
  {
    seq(|r|, i requires 0 <= i < |r| => (r[i].0, f(r[i].1, r[i].0)))
  }

  /** `record[k]` for a key the record has: the value at its first occurrence. */
  function Lookup<V>(r: seq<(string, V)>, k: string): (v: V)
    requires k in Keys(r)
    ensures exists i :: 0 <= i < |r| && r[i] == (k, v) && forall j :: 0 <= j < i ==> r[j].0 != k
    decreases |r|
  {
    if r[0].0 == k then r[0].1
    else
      assert k in Keys(r[1..]) by {
        var i :| 0 <= i < |r| && Keys(r)[i] == k;
        assert Keys(r[1..])[i - 1] == k;
      }
      Lookup(r[1..], k)
  }

  /** fp-ts `ReadonlyArray.uniq`: the distinct elements, each at the place of its first occurrence. */
  function Uniq<T(==)>(xs: seq<T>): seq<T>
    decreases |xs|
  {
    if xs == [] then []
    else
      var u := Uniq(xs[..|xs| - 1]);
      if xs[|xs| - 1] in u then u else u + [xs[|xs| - 1]]
  }

  /** Uniq keeps exactly the elements of its input. */
  lemma {:induction false} UniqMembers<T>(xs: seq<T>)
    ensures forall x :: x in Uniq(xs) <==> x in xs
    decreases |xs|
  {
    if xs != [] {
      var init := xs[..|xs| - 1];
      UniqMembers(init);
      assert xs == init + [xs[|xs| - 1]];
    }
  }

  /** The de-duplicated list is a single `y` exactly when the input is
      non-empty and every element of it is `y`. */
  lemma {:induction false} UniqSingleton<T>(xs: seq<T>, y: T)
    ensures Uniq(xs) == [y] <==> (|xs| > 0 && forall i :: 0 <= i < |xs| ==> xs[i] == y)
    decreases |xs|
  {
    UniqMembers(xs);
    if xs != [] {
      var init := xs[..|xs| - 1];
      var last := xs[|xs| - 1];
      UniqMembers(init);
      UniqSingleton(init, y);
      if Uniq(xs) == [y] {
        forall i | 0 <= i < |xs| ensures xs[i] == y {
          assert xs[i] in xs;
        }
      }
      if forall i :: 0 <= i < |xs| ==> xs[i] == y {
        if init == [] {
          assert Uniq(init) == [];
        } else {
          assert forall i :: 0 <= i < |init| ==> init[i] == xs[i];
          assert Uniq(init) == [y];
        }
      }
    }
  }
}
