/** The `pybloom.BloomFilter` the code keeps its n-grams in, as an abstract
    bit set: `probe(key)` is the set of bit positions a key's hashes select
    (at least one), `add` sets them, `key in bf` tests them, and `len(bf)`
    counts the adds that found a bit still clear. The filter never forgets a
    key it was given; it may report a key it was never given. */
module Bloom {

  /** The bit positions the hashes of a key select. */
  type Probe = string -> set<nat>

  /** Every key sets at least one bit (pybloom uses k >= 1 hash slices). */
  ghost predicate ValidProbe(probe: Probe) {
    forall key :: probe(key) != {}
  }

  /** The filter's state: the bits that are on and the `count` `len(bf)` returns. */
  datatype Bits = Bits(on: set<nat>, count: nat)

  function Empty(): Bits { Bits({}, 0) }

  /** `key in bf`: every bit of the key is set. */
  predicate Has(probe: Probe, b: Bits, key: string) {
    probe(key) <= b.on
  }

  /** `bf.add(key)`: set the key's bits; the count grows only when some bit
      was still clear. */
  function Insert(probe: Probe, b: Bits, key: string): (r: Bits)
    ensures Has(probe, r, key)
    ensures b.on <= r.on
  {
    Bits(b.on + probe(key), if Has(probe, b, key) then b.count else b.count + 1)
  }

  /** `for key in keys: bf.add(key)`. */
  function InsertAll(probe: Probe, b: Bits, keys: seq<string>): (r: Bits) {
    if keys == [] then b else Insert(probe, InsertAll(probe, b, keys[..|keys| - 1]), keys[|keys| - 1])
  }

  /** The empty filter contains no key. */
  lemma EmptyHasNothing(probe: Probe, key: string)
    requires ValidProbe(probe)
    ensures !Has(probe, Empty(), key)
  {
    assert probe(key) != {};
  }

  /** No false negatives: after the adds every added key is contained, and
      every key contained before still is. */
  lemma {:induction false} InsertAllHas(probe: Probe, b: Bits, keys: seq<string>)
    ensures b.on <= InsertAll(probe, b, keys).on
    ensures forall i :: 0 <= i < |keys| ==> Has(probe, InsertAll(probe, b, keys), keys[i])
  {
    if keys != [] {
      InsertAllHas(probe, b, keys[..|keys| - 1]);
      var p := keys[..|keys| - 1];
      forall i | 0 <= i < |keys| - 1 ensures keys[i] == p[i] { }
    }
  }

  /** A filter whose count is 0 has no bit set: this holds for the empty
      filter and every `add` keeps it. */
  predicate ZeroIsEmpty(b: Bits) {
    b.count == 0 ==> b.on == {}
  }

  /** `bool(bf)`, i.e. `len(bf) > 0`, after the adds: true exactly when it was
      true before or some key was added. */
  lemma {:induction false} InsertAllTruthy(probe: Probe, b: Bits, keys: seq<string>)
    requires ValidProbe(probe) && ZeroIsEmpty(b)
    ensures ZeroIsEmpty(InsertAll(probe, b, keys))
    ensures InsertAll(probe, b, keys).count > 0 <==> b.count > 0 || keys != []
  {
    if keys != [] {
      var p := keys[..|keys| - 1];
      InsertAllTruthy(probe, b, p);
      var c := InsertAll(probe, b, p);
      if c.count == 0 {
        assert probe(keys[|keys| - 1]) != {};
      }
    }
  }

  /** The filter object. `inserted` records the keys given to `add`. */
  class BloomFilter {
    const probe: Probe
    var bits: set<nat>
    var count: nat
    ghost var inserted: set<string>

    function State(): Bits
      reads this
    {
      Bits(bits, count)
    }

    /** Every key given to `add` is contained; a count of 0 means no bit is
        set. */
    ghost predicate Valid()
      reads this
    {
      && ValidProbe(probe)
      && ZeroIsEmpty(State())
      && forall key :: key in inserted ==> Has(probe, State(), key)
    }

    /** `BloomFilter(capacity, error_rate)`: an empty filter. */
    constructor (probe: Probe)
      requires ValidProbe(probe)
      ensures Valid()
      ensures this.probe == probe && State() == Empty() && inserted == {}
    {
      this.probe := probe;
      bits := {};
      count := 0;
      inserted := {};
    }

    /** `key in bf`. */
    predicate Contains(key: string)
      reads this
    {
      Has(probe, State(), key)
    }

    /** `bf.add(key)`: returns whether every bit of the key was already set. */
    method Add(key: string) returns (found: bool)
      requires Valid()
      modifies this
      ensures Valid()
      ensures found == old(Contains(key))
      ensures State() == Insert(probe, old(State()), key)
      ensures inserted == old(inserted) + {key}
    {
      found := probe(key) <= bits;
      if !found {
        count := count + 1;
      }
      bits := bits + probe(key);
      inserted := inserted + {key};
    }
  }
}
