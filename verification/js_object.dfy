/**
 * Plain JavaScript objects as maps from own property names to values, and
 * the `__assign` helper (`Object.assign` or its polyfill) that copies the
 * own properties of each source, in order, onto the target.
 */
module JsObject {

  /** The values an options object may hold; `Reference` stands for any object or function. */
  datatype JsValue = Undefined | Text(text: string) | Bool(flag: bool) | Number(n: int) | Reference(id: nat)

  /** Own enumerable properties of an object. */
  type Object = map<string, JsValue>

  /** Some source has own property `k`. */
  predicate InSomeSource(sources: seq<Object>, k: string) {
    exists j | 0 <= j < |sources| :: k in sources[j]
  }

  /** `sources[j]` is the last source that has own property `k`. */
  predicate LastSourceWith(sources: seq<Object>, k: string, j: int) {
    0 <= j < |sources| && k in sources[j] && forall j' | j < j' < |sources| :: k !in sources[j']
  }

  lemma SourcesShift(sources: seq<Object>)
    requires |sources| > 0
    ensures forall k :: InSomeSource(sources, k) <==> k in sources[0] || InSomeSource(sources[1..], k)
    ensures forall k, j | LastSourceWith(sources, k, j) && j >= 1 :: LastSourceWith(sources[1..], k, j - 1)
    ensures forall k | k in sources[0] && !InSomeSource(sources[1..], k) :: LastSourceWith(sources, k, 0)
  {
    forall k | InSomeSource(sources, k) && k !in sources[0]
      ensures InSomeSource(sources[1..], k)
    {
      var j :| 0 <= j < |sources| && k in sources[j];
      assert sources[1..][j - 1] == sources[j];
    }
    forall k | InSomeSource(sources[1..], k)
      ensures InSomeSource(sources, k)
    {
      var j :| 0 <= j < |sources[1..]| && k in sources[1..][j];
      assert sources[j + 1] == sources[1..][j];
    }
    forall k, j | LastSourceWith(sources, k, j) && j >= 1
      ensures LastSourceWith(sources[1..], k, j - 1)
    {
      assert sources[1..][j - 1] == sources[j];
      forall j' | j - 1 < j' < |sources| - 1
        ensures k !in sources[1..][j']
      {
        assert sources[1..][j'] == sources[j' + 1];
      }
    }
    forall k | k in sources[0] && !InSomeSource(sources[1..], k)
      ensures LastSourceWith(sources, k, 0)
    {
      forall j' | 0 < j' < |sources|
        ensures k !in sources[j']
      {
        assert sources[1..][j' - 1] == sources[j'];
      }
    }
  }

  /**
   * `__assign(target, ...sources)`: a property ends up in the result when
   * the target or any source has it, and its value comes from the last
   * source that has it, or from the target when no source does.
   */
  function Assign(target: Object, sources: seq<Object>): (r: Object)
    ensures forall k :: k in r <==> k in target || InSomeSource(sources, k)
    ensures forall k, j | LastSourceWith(sources, k, j) :: k in r && r[k] == sources[j][k]
    ensures forall k | k in target && !InSomeSource(sources, k) :: k in r && r[k] == target[k]
    decreases |sources|
  {
    if |sources| == 0 then target
    else
      SourcesShift(sources);
      Assign(target + sources[0], sources[1..])
  }

  /**
   * `__assign({key: v}, config)`: the keys of `config` plus `key`, with
   * `config`'s values, and `v` only where `config` lacks `key`.
   */
  lemma OverlayOneKey(key: string, v: JsValue, config: Object)
    ensures Assign(map[key := v], [config]).Keys == config.Keys + {key}
    ensures forall k | k in config :: Assign(map[key := v], [config])[k] == config[k]
    ensures key !in config ==> Assign(map[key := v], [config])[key] == v
  {
    AssignOneSource(map[key := v], config);
  }

  /** With one source, `__assign` is the right-biased map union. */
  lemma AssignOneSource(target: Object, source: Object)
    ensures Assign(target, [source]) == target + source
  {
    assert [source][1..] == [];
  }
}
