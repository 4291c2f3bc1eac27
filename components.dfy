/** The components map the formatter rewrites in place (a java.util.HashMap
    in the source). Iteration order, which HashMap leaves unspecified, is made
    explicit: keys are visited in insertion order, a put on a present key
    keeps its place, and a remove takes the key out of the order. */
module Components {
  import opened Wrappers

  predicate Distinct(s: seq<string>) {
    forall i, j :: 0 <= i < j < |s| ==> s[i] != s[j]
  }

  /** The keys of s other than k, in their order. */
  function Without(s: seq<string>, k: string): (r: seq<string>)
    ensures forall x :: x in r <==> x in s && x != k
  {
    if s == [] then [] else (if s[0] == k then [] else [s[0]]) + Without(s[1..], k)
  }

  lemma {:induction false} WithoutDistinct(s: seq<string>, k: string)
    ensures Distinct(s) ==> Distinct(Without(s, k))
  {
    if s != [] && Distinct(s) {
      WithoutDistinct(s[1..], k);
      var w := Without(s[1..], k);
      assert s[0] !in s[1..];
      assert s[0] !in w;
    }
  }

  /** The value of a components map: its keys in iteration order and its
      contents. */
  datatype Entries<V> = Entries(keys: seq<string>, vals: map<string, V>) {

    /** Keys are listed once each, and exactly the keys of the contents. */
    ghost predicate Wf() {
      Distinct(keys) && forall k :: k in vals <==> k in keys
    }

    /** Map.get: null (None) for an absent key. */
    function Get(k: string): Option<V> {
      if k in vals then Some(vals[k]) else None
    }

    /** Map.put: a new key goes to the end of the order. */
    function Put(k: string, v: V): (r: Entries<V>)
      ensures Wf() ==> r.Wf()
      ensures r.vals == vals[k := v]
    {
      if k in vals then Entries(keys, vals[k := v]) else Entries(keys + [k], vals[k := v])
    }

    /** Map.remove. */
    function Remove(k: string): (r: Entries<V>)
      ensures Wf() ==> r.Wf()
      ensures r.vals == vals - {k}
    {
      WithoutDistinct(keys, k);
      Entries(Without(keys, k), vals - {k})
    }
  }

  /** The mutable components map. */
  class ComponentMap<V> {
    var keys: seq<string>
    var vals: map<string, V>

    function Model(): Entries<V>
      reads this
    {
      Entries(keys, vals)
    }

    ghost predicate Valid()
      reads this
    {
      Model().Wf()
    }

    /** new HashMap<>(): an empty map. */
    constructor ()
      ensures Valid() && Model() == Entries([], map[])
    {
      keys := [];
      vals := map[];
    }

    method Put(k: string, v: V)
      requires Valid()
      modifies this
      ensures Valid() && Model() == old(Model()).Put(k, v)
    {
      if k !in vals {
        keys := keys + [k];
      }
      vals := vals[k := v];
    }

    /** Map.remove: the previous value, if any, is returned. */
    method Remove(k: string) returns (prev: Option<V>)
      requires Valid()
      modifies this
      ensures Valid() && Model() == old(Model()).Remove(k)
      ensures prev == old(Model()).Get(k)
    {
      prev := if k in vals then Some(vals[k]) else None;
      WithoutDistinct(keys, k);
      keys := Without(keys, k);
      vals := vals - {k};
    }
  }

  /** A method that returns a value and rewrites the map agrees with a
      specification of both: the same value and contents, or the same
      failure (the map's state after an exception is not observed). */
  ghost predicate Yields<T, V>(res: Result<T>, spec: Result<(T, Entries<V>)>, now: Entries<V>) {
    match spec
    case Ok(p) => res == Ok(p.0) && now == p.1
    case Err(e) => res == Err(e)
  }

  /** The same for a method that only rewrites the map. */
  ghost predicate Reaches<V>(out: Outcome, spec: Result<Entries<V>>, now: Entries<V>) {
    match spec
    case Ok(m) => out == Pass && now == m
    case Err(e) => out == Fail(e)
  }
}
