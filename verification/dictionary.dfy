/**
 * `Dictionary`: an insertion-ordered association table from classified token to
 * classified token, kept as two parallel sequences searched by linear scan.
 */
module Table {
  import opened Tokens

  /** No key occurs twice. */
  predicate Distinct(s: seq<GeneralToken>)
  {
    forall i, j :: 0 <= i < j < |s| ==> s[i] != s[j]
  }

  class Dictionary {
    /** `i_keys`, also what `keys()` returns. */
    var keys: seq<GeneralToken>
    /** `i_values`, also what `values()` returns. */
    var values: seq<GeneralToken>

    /** The table's invariant: parallel sequences of one length, no key twice. */
    ghost predicate Valid()
      reads this
    {
      |keys| == |values| && Distinct(keys)
    }

    constructor ()
      ensures Valid() && keys == [] && values == []
    {
      keys, values := [], [];
    }

    /** `has(k)`: a scan of the keys for `k`. */
    method Has(k: GeneralToken) returns (r: bool)
      ensures r <==> k in keys
    {
      var i := 0;
      while i < |keys|
        invariant 0 <= i <= |keys|
        invariant k !in keys[..i]
      {
        if keys[i] == k {
          return true;
        }
        assert keys[..i + 1] == keys[..i] + [keys[i]];
        i := i + 1;
      }
      assert keys[..i] == keys;
      return false;
    }

    /** `pairs()`: a fresh sequence of the entries, in insertion order. */
    method Pairs() returns (r: seq<(GeneralToken, GeneralToken)>)
      requires Valid()
      ensures |r| == |keys|
      ensures forall i :: 0 <= i < |r| ==> r[i] == (keys[i], values[i])
    {
      r := [];
      var i := 0;
      while i < |keys|
        invariant 0 <= i <= |keys| && |r| == i
        invariant forall j :: 0 <= j < i ==> r[j] == (keys[j], values[j])
      {
        r := r + [(keys[i], values[i])];
        i := i + 1;
      }
    }

    /**
     * `operator[]`: the slot of `k`'s value. A present key is found by a scan and
     * nothing changes; an absent key is appended with the null sentinel as its value.
     */
    method Subscript(k: GeneralToken) returns (slot: nat)
      requires Valid()
      modifies this
      ensures Valid()
      ensures slot < |keys| && keys[slot] == k
      ensures k in old(keys) ==>
        keys == old(keys) && values == old(values) && k !in keys[..slot]
      ensures k !in old(keys) ==>
        keys == old(keys) + [k] && values == old(values) + [GeneralNull] && slot == old(|keys|)
    {
      var i := 0;
      while i < |keys|
        invariant 0 <= i <= |keys|
        invariant k !in keys[..i]
      {
        if keys[i] == k {
          return i;
        }
        assert keys[..i + 1] == keys[..i] + [keys[i]];
        i := i + 1;
      }
      assert keys[..i] == keys;
      keys := keys + [k];
      values := values + [GeneralNull];
      slot := |keys| - 1;
    }
  }
}
