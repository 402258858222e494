/** `URLSearchParams` over an already parsed query: an ordered list of
    name/value pairs, in which a name may repeat. */
module UrlParams {
  import opened Wrappers
  import Text

  type Params = seq<(string, string)>

  /** `params.get(name)`: the value of the first pair with that name. */
  function Get(ps: Params, name: string): (r: Option<string>)
    ensures r.None? <==> forall i :: 0 <= i < |ps| ==> ps[i].0 != name
    ensures r.Some? ==> (name, r.value) in ps
    ensures ps != [] && ps[0].0 == name ==> r == Some(ps[0].1)
    decreases |ps|
  {
    if ps == [] then None
    else if ps[0].0 == name then Some(ps[0].1)
    else
      assert forall i :: 0 <= i < |ps| - 1 ==> ps[1..][i] == ps[i + 1];
      assert ps == [ps[0]] + ps[1..];
      Get(ps[1..], name)
  }

  /** The pairs with a different name, in order. */
  function Without(ps: Params, name: string): (r: Params)
    ensures forall i :: 0 <= i < |r| ==> r[i].0 != name
    decreases |ps|
  {
    if ps == [] then []
    else if ps[0].0 == name then Without(ps[1..], name)
    else [ps[0]] + Without(ps[1..], name)
  }

  /** `params.set(name, value)`: the first pair with that name takes the
      value in place and the later ones are removed; without one, the pair is
      appended. */
  function SetParam(ps: Params, name: string, value: string): Params
    decreases |ps|
  {
    if ps == [] then [(name, value)]
    else if ps[0].0 == name then [(name, value)] + Without(ps[1..], name)
    else [ps[0]] + SetParam(ps[1..], name, value)
  }

  /** After `set`, the name reads back the value, every other name reads as
      before, and the pairs with other names are kept in order. */
  lemma {:induction false} SetParamProperties(ps: Params, name: string, value: string)
    ensures Get(SetParam(ps, name, value), name) == Some(value)
    ensures forall other :: other != name ==> Get(SetParam(ps, name, value), other) == Get(ps, other)
    ensures Without(SetParam(ps, name, value), name) == Without(ps, name)
    ensures |Without(SetParam(ps, name, value), name)| + 1 == |SetParam(ps, name, value)|
    decreases |ps|
  {
    if ps == [] {
    } else if ps[0].0 == name {
      WithoutGet(ps[1..], name);
      WithoutTwice(ps[1..], name);
    } else {
      SetParamProperties(ps[1..], name, value);
      assert SetParam(ps, name, value)[1..] == SetParam(ps[1..], name, value);
    }
  }

  /** Removing a name leaves every other name's first value alone. */
  lemma {:induction false} WithoutGet(ps: Params, name: string)
    ensures forall other :: other != name ==> Get(Without(ps, name), other) == Get(ps, other)
    decreases |ps|
  {
    if ps != [] {
      WithoutGet(ps[1..], name);
      if ps[0].0 != name {
        assert Without(ps, name)[1..] == Without(ps[1..], name);
      }
    }
  }

  /** Removing a name twice is removing it once. */
  lemma {:induction false} WithoutTwice(ps: Params, name: string)
    ensures Without(Without(ps, name), name) == Without(ps, name)
    decreases |ps|
  {
    if ps != [] {
      WithoutTwice(ps[1..], name);
      if ps[0].0 != name {
        assert Without(ps, name)[1..] == Without(ps[1..], name);
      }
    }
  }

  /** `params.toString()`, without percent-encoding. */
  function Serialize(ps: Params): string
    decreases |ps|
  {
    if ps == [] then ""
    else if |ps| == 1 then ps[0].0 + "=" + ps[0].1
    else ps[0].0 + "=" + ps[0].1 + "&" + Serialize(ps[1..])
  }

  /** A mutable `URLSearchParams` object. */
  class SearchParams {
    var pairs: Params

    /** `new URLSearchParams(search)` */
    constructor (pairs: Params)
      ensures this.pairs == pairs
    {
      this.pairs := pairs;
    }

    function GetValue(name: string): (r: Option<string>)
      reads this
      ensures r == Get(pairs, name)
    {
      Get(pairs, name)
    }

    method Set(name: string, value: string)
      modifies this
      ensures pairs == SetParam(old(pairs), name, value)
    {
      pairs := SetParam(pairs, name, value);
    }
  }
}
