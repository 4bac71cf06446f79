/**
 * The bounded cache of decoded XDR values (src/utils/xdrCache.ts): least recently used out first, built on the
 * insertion order of a JavaScript Map. Decoding itself is an arbitrary partial function on well-formed inputs.
 */
module XdrCache {
  import opened Common

  const MAX_CACHE_SIZE := 50

  datatype Codec<!V> = Codec(wellFormed: string -> bool, fromXdr: string -> Option<V>)
  datatype Decoded<+V> = Value(value: V) | MalformedInput | DecodingFailed

  /** What decoding gives without a cache. */
  function Direct<V>(codec: Codec<V>, input: string): Decoded<V> {
    if !codec.wellFormed(input) then MalformedInput
    else
      match codec.fromXdr(input)
      case None => DecodingFailed
      case Some(value) => Value(value)
  }

  ghost predicate Distinct<K>(s: seq<K>) {
    forall i, j :: 0 <= i < j < |s| ==> s[i] != s[j]
  }

  /** `keys` without `key`: what `Map.delete` does to the insertion order. */
  function Delete<K(==)>(keys: seq<K>, key: K): (rest: seq<K>)
    ensures |rest| <= |keys|
  {
    if keys == [] then []
    else (if keys[0] == key then [] else [keys[0]]) + Delete(keys[1..], key)
  }

  /** The distinct inputs of a history of uses, least recently used first. */
  function Recency<K(==)>(uses: seq<K>): seq<K> {
    if uses == [] then []
    else Delete(Recency(uses[..|uses| - 1]), uses[|uses| - 1]) + [uses[|uses| - 1]]
  }

  function Newest<K>(s: seq<K>, n: nat): seq<K> {
    if |s| <= n then s else s[|s| - n..]
  }

  class Cache<V(!new)> {
    const codec: Codec<V>
    var keys: seq<string>
    var values: map<string, V>
    /** The successful decodes since the last clear. */
    ghost var uses: seq<string>

    /** In insertion order, the keys are the at most 50 most recently used inputs, and values are what direct
        decoding gives. */
    ghost predicate Valid()
      reads this
    {
      && keys == Newest(Recency(uses), MAX_CACHE_SIZE)
      && (forall k :: k in values <==> k in keys)
      && forall k :: k in values ==> Direct(codec, k) == Value(values[k])
    }

    constructor (codec: Codec<V>)
      ensures this.codec == codec && uses == [] && Valid()
    {
      this.codec := codec;
      keys, values, uses := [], map[], [];
    }

    method DecodeXdrBase64(input: string) returns (result: Decoded<V>)
      requires Valid()
      modifies this
      ensures Valid()
      ensures result == Direct(codec, input)
      ensures result.MalformedInput? <==> !codec.wellFormed(input)
      ensures result.Value? <==> codec.wellFormed(input) && codec.fromXdr(input) != None
      ensures result.Value? ==> codec.fromXdr(input) == Some(result.value)
      ensures uses == if result.Value? then old(uses) + [input] else old(uses)
    {
      if !codec.wellFormed(input) {
        return MalformedInput;
      }
      if input in values {
        var cached := values[input];
        Refresh(input);
        return Value(cached);
      }
      var decoded := codec.fromXdr(input);
      if decoded.None? {
        return DecodingFailed;
      }
      Store(input, decoded.value);
      return Value(decoded.value);
    }

    /** Deletes and re-inserts a key that is present, which makes it the newest. */
    method Refresh(input: string)
      requires Valid() && input in keys
      modifies this
      ensures Valid() && uses == old(uses) + [input]
    {
      UseHit(uses, input);
      DeleteMembers(keys, input);
      keys := Delete(keys, input) + [input];
      uses := uses + [input];
    }

    method Store(input: string, value: V)
      requires Valid() && input !in keys && Direct(codec, input) == Value(value)
      modifies this
      ensures Valid() && uses == old(uses) + [input]
    {
      UseMiss(uses, input);
      if |keys| >= MAX_CACHE_SIZE {
        values := values - {keys[0]};
        keys := keys[1..];
      }
      keys := keys + [input];
      values := values[input := value];
      uses := uses + [input];
    }

    method ClearXdrCache()
      modifies this
      ensures Valid() && uses == []
    {
      keys, values, uses := [], map[], [];
    }

    method GetXdrCacheSize() returns (size: nat)
      requires Valid()
      ensures size == if |Recency(uses)| < 50 then |Recency(uses)| else 50
    {
      size := |keys|;
    }
  }

  // ---------------------------------------------------------------------------
  // Least recently used
  // ---------------------------------------------------------------------------

  lemma {:induction false} DeleteMembers<K>(keys: seq<K>, key: K)
    ensures forall k :: k in Delete(keys, key) <==> k in keys && k != key
  {
    if keys == [] {
    } else {
      DeleteMembers(keys[1..], key);
      assert keys == [keys[0]] + keys[1..];
    }
  }

  lemma DeleteMember<K>(keys: seq<K>, key: K, k: K)
    ensures k in Delete(keys, key) <==> k in keys && k != key
  {
  }

  lemma {:induction false} DeleteConcat<K>(a: seq<K>, b: seq<K>, key: K)
    ensures Delete(a + b, key) == Delete(a, key) + Delete(b, key)
  {
    if a == [] {
      assert a + b == b;
    } else {
      DeleteConcat(a[1..], b, key);
      assert (a + b)[1..] == a[1..] + b;
      Assoc(if a[0] == key then [] else [a[0]], Delete(a[1..], key), Delete(b, key));
    }
  }

  lemma {:induction false} DeleteAbsent<K>(keys: seq<K>, key: K)
    requires key !in keys
    ensures Delete(keys, key) == keys
  {
    if keys == [] {
    } else {
      DeleteAbsent(keys[1..], key);
    }
  }

  lemma {:induction false} DeleteLength<K>(keys: seq<K>, key: K)
    requires Distinct(keys) && key in keys
    ensures |Delete(keys, key)| == |keys| - 1
  {
    if keys[0] == key {
      DeleteAbsent(keys[1..], key);
    } else {
      DeleteLength(keys[1..], key);
    }
  }

  lemma {:induction false} DeleteDistinct<K>(keys: seq<K>, key: K)
    requires Distinct(keys)
    ensures Distinct(Delete(keys, key))
  {
    if keys == [] {
    } else {
      var rest := Delete(keys[1..], key);
      DeleteDistinct(keys[1..], key);
      DeleteMembers(keys[1..], key);
      forall i | 0 <= i < |rest| ensures rest[i] != keys[0] {
        DeleteMember(keys[1..], key, rest[i]);
        assert rest[i] in keys[1..];
      }
    }
  }

  lemma {:induction false} RecencyDistinct<K>(uses: seq<K>)
    ensures Distinct(Recency(uses))
  {
    if uses == [] {
    } else {
      var front, last := Recency(uses[..|uses| - 1]), uses[|uses| - 1];
      RecencyDistinct(uses[..|uses| - 1]);
      DeleteDistinct(front, last);
      DeleteMembers(front, last);
      var rest := Delete(front, last);
      forall i | 0 <= i < |rest| ensures rest[i] != last {
        assert rest[i] in rest;
      }
    }
  }

  lemma RecencySnoc<K>(uses: seq<K>, input: K)
    ensures Recency(uses + [input]) == Delete(Recency(uses), input) + [input]
  {
  }

  /** The recency list splits into what has been evicted and what is kept. */
  lemma NewestSplit<K>(s: seq<K>, n: nat) returns (evicted: seq<K>)
    ensures s == evicted + Newest(s, n)
    ensures |Newest(s, n)| <= n && (evicted != [] ==> |Newest(s, n)| == n)
  {
    evicted := s[..|s| - |Newest(s, n)|];
  }

  /** On a hit, moving the key to the end is what the bound on the whole history asks for. */
  lemma UseHit<K>(uses: seq<K>, input: K)
    requires input in Newest(Recency(uses), MAX_CACHE_SIZE)
    ensures Newest(Recency(uses + [input]), MAX_CACHE_SIZE)
         == Delete(Newest(Recency(uses), MAX_CACHE_SIZE), input) + [input]
  {
    var all := Recency(uses);
    var kept := Newest(all, MAX_CACHE_SIZE);
    var evicted := NewestSplit(all, MAX_CACHE_SIZE);
    RecencyDistinct(uses);
    RecencySnoc(uses, input);
    SplitDistinct(evicted, kept, input);
    DeleteConcat(evicted, kept, input);
    DeleteAbsent(evicted, input);
    DeleteLength(kept, input);
    NewestSuffix(evicted, Delete(kept, input) + [input]);
    Assoc(evicted, Delete(kept, input), [input]);
  }

  lemma SplitDistinct<K>(a: seq<K>, b: seq<K>, x: K)
    requires Distinct(a + b) && x in b
    ensures x !in a && Distinct(b)
  {
    var j :| 0 <= j < |b| && b[j] == x;
    forall i | 0 <= i < |a| ensures a[i] != x {
      assert (a + b)[i] == a[i] && (a + b)[|a| + j] == x;
    }
    forall i, k | 0 <= i < k < |b| ensures b[i] != b[k] {
      assert (a + b)[|a| + i] == b[i] && (a + b)[|a| + k] == b[k];
    }
  }

  lemma NewestSuffix<K>(a: seq<K>, b: seq<K>)
    requires |b| <= MAX_CACHE_SIZE && (a != [] ==> |b| == MAX_CACHE_SIZE)
    ensures Newest(a + b, MAX_CACHE_SIZE) == b
  {
  }

  /** On a miss, the oldest key goes exactly when the cache is full. */
  lemma UseMiss<K>(uses: seq<K>, input: K)
    requires input !in Newest(Recency(uses), MAX_CACHE_SIZE)
    ensures var kept := Newest(Recency(uses), MAX_CACHE_SIZE);
            && |kept| <= MAX_CACHE_SIZE && Distinct(kept)
            && Newest(Recency(uses + [input]), MAX_CACHE_SIZE)
            == (if |kept| >= MAX_CACHE_SIZE then kept[1..] else kept) + [input]
  {
    var all := Recency(uses);
    var kept := Newest(all, MAX_CACHE_SIZE);
    var evicted := NewestSplit(all, MAX_CACHE_SIZE);
    RecencyDistinct(uses);
    RecencySnoc(uses, input);
    DeleteConcat(evicted, kept, input);
    DeleteAbsent(kept, input);
    Assoc(Delete(evicted, input), kept, [input]);
    if |kept| >= MAX_CACHE_SIZE {
      FullMiss(Delete(evicted, input), kept, input);
    } else {
      assert [] + (kept + [input]) == kept + [input];
    }
  }

  lemma FullMiss<K>(older: seq<K>, kept: seq<K>, input: K)
    requires |kept| == MAX_CACHE_SIZE
    ensures Newest(older + (kept + [input]), MAX_CACHE_SIZE) == kept[1..] + [input]
  {
  }

  /** The position of the last use of `input`. */
  function LastUse<K(==)>(uses: seq<K>, input: K): int {
    if uses == [] then -1
    else if uses[|uses| - 1] == input then |uses| - 1
    else LastUse(uses[..|uses| - 1], input)
  }

  ghost predicate ByLastUse<K>(uses: seq<K>, keys: seq<K>) {
    forall i, j :: 0 <= i < j < |keys| ==> LastUse(uses, keys[i]) < LastUse(uses, keys[j])
  }

  lemma {:induction false} LastUseBound<K>(uses: seq<K>, x: K)
    ensures LastUse(uses, x) < |uses|
  {
    if uses != [] && uses[|uses| - 1] != x {
      LastUseBound(uses[..|uses| - 1], x);
    }
  }

  lemma PrependOrdered<K>(uses: seq<K>, head: K, rest: seq<K>)
    requires ByLastUse(uses, rest)
    requires forall x :: x in rest ==> LastUse(uses, head) < LastUse(uses, x)
    ensures ByLastUse(uses, [head] + rest)
  {
  }

  lemma {:induction false} DeleteOrdered<K>(uses: seq<K>, keys: seq<K>, key: K)
    requires ByLastUse(uses, keys)
    ensures ByLastUse(uses, Delete(keys, key))
  {
    if keys == [] {
    } else {
      var rest := Delete(keys[1..], key);
      DeleteOrdered(uses, keys[1..], key);
      if keys[0] != key {
        forall x | x in rest ensures LastUse(uses, keys[0]) < LastUse(uses, x) {
          DeleteMember(keys[1..], key, x);
          var k :| 0 <= k < |keys[1..]| && keys[1..][k] == x;
          assert keys[k + 1] == x;
        }
        PrependOrdered(uses, keys[0], rest);
      }
    }
  }

  /** One more use puts its input last and leaves the order of the others as it was. */
  lemma SnocOrdered<K>(front: seq<K>, rest: seq<K>, last: K)
    requires ByLastUse(front, rest) && last !in rest
    ensures ByLastUse(front + [last], rest + [last])
  {
    var uses, all := front + [last], rest + [last];
    assert uses[..|uses| - 1] == front;
    forall i, j | 0 <= i < j < |all| ensures LastUse(uses, all[i]) < LastUse(uses, all[j]) {
      assert all[i] == rest[i] && rest[i] in rest;
      LastUseBound(front, rest[i]);
      if j < |rest| {
        assert all[j] == rest[j] && rest[j] in rest;
      }
    }
  }

  /** The recency list holds each used input once, ordered by when it was last used. */
  lemma {:induction false} RecencyByLastUse<K>(uses: seq<K>)
    ensures Distinct(Recency(uses))
    ensures forall x :: x in Recency(uses) <==> x in uses
    ensures ByLastUse(uses, Recency(uses))
  {
    RecencyDistinct(uses);
    if uses == [] {
    } else {
      var front, last := uses[..|uses| - 1], uses[|uses| - 1];
      var rest := Delete(Recency(front), last);
      assert uses == front + [last];
      RecencyByLastUse(front);
      DeleteMembers(Recency(front), last);
      DeleteOrdered(front, Recency(front), last);
      DeleteMember(Recency(front), last, last);
      SnocOrdered(front, rest, last);
      forall x ensures x in Recency(uses) <==> x in uses {
        DeleteMember(Recency(front), last, x);
        assert x in rest + [last] <==> x in rest || x == last;
        assert x in front + [last] <==> x in front || x == last;
      }
    }
  }
}
