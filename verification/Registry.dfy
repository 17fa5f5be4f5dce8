/** Registration under a duplicate strategy, the part both registries share. */
module Registry {
  import opened Payload

  datatype Strategy = SilentOverride | SilentIgnore | IndicateIgnore | Throw

  /** What a registration call returns, or that it throws `std::invalid_argument`. */
  datatype Registered = Returned(ok: bool) | InvalidArgument

  /** What to do with a registration whose key is taken: store it after all or not, and the answer. */
  function OnDuplicate(strategy: Strategy): (bool, Registered) {
    match strategy
    case SilentOverride => (true, Returned(true))
    case SilentIgnore => (false, Returned(true))
    case IndicateIgnore => (false, Returned(false))
    case Throw => (false, InvalidArgument)
  }

  /** Whether a registration is stored, and the answer to the caller. */
  function Decide(strategy: Strategy, taken: bool): (bool, Registered) {
    if taken then OnDuplicate(strategy) else (true, Returned(true))
  }

  datatype Registration<V> = Registration(key: Name, value: V)

  function Put<V>(strategy: Strategy, m: map<Name, V>, r: Registration<V>): map<Name, V> {
    if Decide(strategy, r.key in m).0 then m[r.key := r.value] else m
  }

  /** The map after a sequence of registrations. */
  function PutAll<V>(strategy: Strategy, rs: seq<Registration<V>>): map<Name, V> {
    if rs == [] then map[] else Put(strategy, PutAll(strategy, rs[..|rs| - 1]), rs[|rs| - 1])
  }

  /** The registration that decides what is stored under its key. */
  ghost predicate Decisive<V>(strategy: Strategy, rs: seq<Registration<V>>, k: nat) {
    && k < |rs|
    && if strategy.SilentOverride? then forall j | k < j < |rs| :: rs[j].key != rs[k].key
       else forall j | 0 <= j < k :: rs[j].key != rs[k].key
  }

  /** A registry is a fold: last registration wins under `SilentOverride`, the first one otherwise. */
  lemma {:induction false} PutAllIsFold<V>(strategy: Strategy, rs: seq<Registration<V>>, k: nat)
    requires Decisive(strategy, rs, k)
    ensures rs[k].key in PutAll(strategy, rs)
    ensures PutAll(strategy, rs)[rs[k].key] == rs[k].value
  {
    var n := |rs| - 1;
    PutAllKeys(strategy, rs[..n], rs[k].key);
    if k < n {
      PutAllIsFold(strategy, rs[..n], k);
    }
  }

  /** A key is stored exactly if it was registered. */
  lemma {:induction false} PutAllKeys<V>(strategy: Strategy, rs: seq<Registration<V>>, key: Name)
    ensures key in PutAll(strategy, rs) <==> exists k | 0 <= k < |rs| :: rs[k].key == key
  {
    if rs != [] {
      var n := |rs| - 1;
      PutAllKeys(strategy, rs[..n], key);
      assert forall k | 0 <= k < n :: rs[..n][k].key == rs[k].key;
      if rs[n].key != key && key in PutAll(strategy, rs[..n]) {
        var k :| 0 <= k < n && rs[..n][k].key == key;
        assert rs[k].key == key;
      }
    }
  }

  /** What the next registration answers: false exactly for a duplicate under `IndicateIgnore`, an
      exception exactly for one under `Throw`; the map changes exactly if the registration is new or
      overrides. */
  lemma {:induction false} AnswerMeans<V>(strategy: Strategy, rs: seq<Registration<V>>, r: Registration<V>)
    ensures var m := PutAll(strategy, rs);
            var duplicate := exists k | 0 <= k < |rs| :: rs[k].key == r.key;
            && (Decide(strategy, r.key in m).1 == Returned(false) <==> duplicate && strategy.IndicateIgnore?)
            && (Decide(strategy, r.key in m).1 == InvalidArgument <==> duplicate && strategy.Throw?)
            && (duplicate && !strategy.SilentOverride? ==> Put(strategy, m, r) == m)
            && (!duplicate || strategy.SilentOverride? ==> Put(strategy, m, r) == m[r.key := r.value])
  {
    PutAllKeys(strategy, rs, r.key);
  }
}
