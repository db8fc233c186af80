/**
 The order in which Object.entries lists the keys of a JavaScript object: array
 indices first, ascending, and then the others as they were added.
 */
module ObjectKeys {
  import opened Wrappers

  predicate AllDigits(key: Bytes)
  {
    forall i :: 0 <= i < |key| ==> 48 <= key[i] <= 57
  }

  function Decimal(key: Bytes): nat
    requires AllDigits(key)
  {
    if key == [] then 0 else 10 * Decimal(key[..|key| - 1]) + (key[|key| - 1] - 48)
  }

  /** A key that is the decimal form of a number below 2^32 - 1. */
  predicate IsIndex(key: Bytes)
  {
    key != [] && AllDigits(key) && (key[0] != 48 || |key| == 1) && Decimal(key) < 0xffff_ffff
  }

  /** How a number is written in decimal. */
  function DecimalForm(n: nat): Bytes
  {
    if n < 10 then [48 + n] else DecimalForm(n / 10) + [48 + n % 10]
  }

  lemma {:induction false} FormIsDecimal(n: nat)
    ensures var key := DecimalForm(n);
            && AllDigits(key) && Decimal(key) == n && key != [] && (key[0] == 48 ==> n == 0)
            && (n < 10 ==> |key| == 1)
  {
    if n < 10 {
      assert DecimalForm(n)[..0] == [];
    } else {
      FormIsDecimal(n / 10);
      var key, h := DecimalForm(n), DecimalForm(n / 10);
      assert key[..|key| - 1] == h;
    }
  }

  lemma {:induction false} DecimalIsForm(key: Bytes)
    requires AllDigits(key) && key != [] && (key[0] != 48 || |key| == 1)
    ensures key == DecimalForm(Decimal(key)) && (|key| > 1 ==> Decimal(key) >= 10)
    decreases |key|
  {
    var h, d := key[..|key| - 1], key[|key| - 1] - 48;
    assert key == h + [48 + d];
    if |key| == 1 {
      assert Decimal(h) == 0;
    } else {
      DecimalIsForm(h);
      if |h| == 1 { assert Decimal(h[..0]) == 0; }
    }
  }

  /** A key is an index exactly if it is how some number below 2^32 - 1 is written. */
  lemma IndexExactly(key: Bytes)
    ensures IsIndex(key) <==> exists n: nat :: n < 4294967295 && key == DecimalForm(n)
  {
    if IsIndex(key) { DecimalIsForm(key); }
    if n: nat :| n < 4294967295 && key == DecimalForm(n) { FormIsDecimal(n); }
  }

  /** The keys after a new one has been added. */
  function Placed(keys: seq<Bytes>, key: Bytes): (r: seq<Bytes>)
    ensures |r| == |keys| + 1 && forall k :: k in r <==> k in keys || k == key
  {
    if IsIndex(key) then PlacedIndex(keys, key) else keys + [key]
  }

  function PlacedIndex(keys: seq<Bytes>, key: Bytes): (r: seq<Bytes>)
    requires IsIndex(key)
    ensures |r| == |keys| + 1 && forall k :: k in r <==> k in keys || k == key
  {
    if keys == [] then [key]
    else if !IsIndex(keys[0]) || Decimal(key) < Decimal(keys[0]) then [key] + keys
    else
      assert keys == [keys[0]] + keys[1..];
      [keys[0]] + PlacedIndex(keys[1..], key)
  }

  /** Whether one key may be listed before another. */
  predicate MayPrecede(a: Bytes, b: Bytes)
  {
    IsIndex(b) ==> IsIndex(a) && Decimal(a) <= Decimal(b)
  }

  predicate Ordered(keys: seq<Bytes>)
  {
    forall i, j :: 0 <= i < j < |keys| ==> MayPrecede(keys[i], keys[j])
  }

  lemma {:induction false} PlacedIndexOrdered(keys: seq<Bytes>, key: Bytes)
    requires Ordered(keys) && IsIndex(key)
    ensures Ordered(PlacedIndex(keys, key))
  {
    hide Decimal, AllDigits;
    if keys != [] && IsIndex(keys[0]) && Decimal(keys[0]) <= Decimal(key) {
      var rest := PlacedIndex(keys[1..], key);
      assert Ordered(keys[1..]);
      PlacedIndexOrdered(keys[1..], key);
      forall k | k in rest ensures MayPrecede(keys[0], k) {
        if k in keys[1..] {
          var j :| 0 <= j < |keys[1..]| && keys[1..][j] == k;
          assert keys[1 + j] == k;
        }
      }
    }
  }

  /** Adding keys one by one keeps indices first and ascending. */
  lemma PlacedOrdered(keys: seq<Bytes>, key: Bytes)
    requires Ordered(keys)
    ensures Ordered(Placed(keys, key))
  {
    if IsIndex(key) { PlacedIndexOrdered(keys, key); }
  }

  /** The keys that are no indices. */
  function Others(keys: seq<Bytes>): seq<Bytes>
  {
    if keys == [] then []
    else Others(keys[..|keys| - 1]) + if IsIndex(keys[|keys| - 1]) then [] else [keys[|keys| - 1]]
  }

  lemma {:induction false} OthersFirst(keys: seq<Bytes>)
    requires keys != []
    ensures Others(keys) == (if IsIndex(keys[0]) then [] else [keys[0]]) + Others(keys[1..])
  {
    hide IsIndex;
    var n := |keys| - 1;
    if n > 0 {
      OthersFirst(keys[..n]);
      assert keys[..n][1..] == keys[1..][..n - 1];
    } else {
      assert keys[..0] == [] && keys[1..] == [];
    }
  }

  lemma {:induction false} OthersPlacedIndex(keys: seq<Bytes>, key: Bytes)
    requires IsIndex(key)
    ensures Others(PlacedIndex(keys, key)) == Others(keys)
  {
    hide IsIndex, Decimal;
    var placed := PlacedIndex(keys, key);
    OthersFirst(placed);
    if keys != [] {
      OthersFirst(keys);
      if placed[1..] == keys {
      } else {
        OthersPlacedIndex(keys[1..], key);
      }
    }
  }

  /** And the others keep the order in which they were added. */
  lemma PlacedOthers(keys: seq<Bytes>, key: Bytes)
    ensures Others(Placed(keys, key)) == Others(keys) + if IsIndex(key) then [] else [key]
  {
    if IsIndex(key) {
      OthersPlacedIndex(keys, key);
    } else {
      assert (keys + [key])[..|keys|] == keys;
    }
  }
}
