/**
 * Per-version state schemas (src/migrations/stateValidator.ts). A schema is a predicate on states.
 */
module StateValidator {
  import opened Migration

  const SEPARATOR := "::"

  function Key(contractId: string, version: string): string {
    contractId + SEPARATOR + version
  }

  /** A version without a registered schema accepts every state. */
  predicate Accepts<S(!new)>(schemas: map<string, S -> bool>, contractId: string, version: string, state: S) {
    var key := Key(contractId, version);
    key in schemas ==> schemas[key](state)
  }

  class Validator<S(!new)> {
    var schemas: map<string, S -> bool>

    constructor ()
      ensures schemas == map[]
    {
      schemas := map[];
    }

    method RegisterStateSchema(contractId: string, version: string, schema: S -> bool)
      modifies this
      ensures schemas == old(schemas)[Key(contractId, version) := schema]
    {
      schemas := schemas[Key(contractId, version) := schema];
    }

    method UnregisterStateSchema(contractId: string, version: string)
      modifies this
      ensures schemas == old(schemas) - {Key(contractId, version)}
    {
      schemas := schemas - {Key(contractId, version)};
    }

    /** Returns the state, or throws a validation error, which is an object and so truthy. */
    method ValidateState(contractId: string, version: string, state: S) returns (outcome: Outcome<S>)
      ensures outcome == if Accepts(schemas, contractId, version, state) then Returned(state) else Raised(VALIDATION_ERROR)
    {
      var key := Key(contractId, version);
      if key !in schemas {
        return Returned(state);
      }
      if schemas[key](state) {
        return Returned(state);
      }
      return Raised(VALIDATION_ERROR);
    }
  }

  const VALIDATION_ERROR := Thrown(true, "MigrationStateValidationError", "State validation failed")

  // ---------------------------------------------------------------------------
  // When do two contracts share a schema key?
  // ---------------------------------------------------------------------------

  /** `b` is `a` followed by ":" or by something that starts with the separator. */
  predicate Shadows(a: string, b: string) {
    && |a| < |b| && b[..|a|] == a
    && (b[|a|..] == ":" || (|a| + 2 <= |b| && b[|a|..|a| + 2] == SEPARATOR))
  }

  lemma ShadowedKey(a: string, b: string) returns (v: string, w: string)
    requires Shadows(a, b)
    ensures Key(a, v) == Key(b, w)
  {
    w := "";
    if b[|a|..] == ":" {
      v := ":";
      assert b == a + ":";
      assert Key(a, v) == a + ":::" == Key(b, w);
    } else {
      v := b[|a| + 2..] + SEPARATOR;
      assert b == a + SEPARATOR + b[|a| + 2..];
    }
  }

  lemma SharedKeyShadows(a: string, v: string, b: string, w: string)
    requires Key(a, v) == Key(b, w) && |a| < |b|
    ensures Shadows(a, b)
  {
    var key := Key(a, v);
    assert key[..|a|] == a;
    assert key[..|b|] == b;
    assert b[..|a|] == a;
    assert key[|a|] == ':' && key[|a| + 1] == ':';
    if |b| == |a| + 1 {
      assert b[|a|..] == [key[|a|]];
    } else {
      assert b[|a|..|a| + 2] == [key[|a|], key[|a| + 1]];
    }
  }

  lemma SameLengthSameId(a: string, v: string, b: string, w: string)
    requires Key(a, v) == Key(b, w) && |a| == |b|
    ensures a == b
  {
    assert Key(a, v)[..|a|] == a;
    assert Key(b, w)[..|b|] == b;
  }

  /** Two contracts can collide on a schema key exactly when one id shadows the other. */
  lemma KeysCollideExactly(a: string, b: string)
    requires a != b
    ensures (exists v, w :: Key(a, v) == Key(b, w)) <==> Shadows(a, b) || Shadows(b, a)
  {
    if Shadows(a, b) {
      var v, w := ShadowedKey(a, b);
    } else if Shadows(b, a) {
      var w, v := ShadowedKey(b, a);
      assert Key(a, v) == Key(b, w);
    }
    forall v, w | Key(a, v) == Key(b, w) ensures Shadows(a, b) || Shadows(b, a) {
      if |a| < |b| {
        SharedKeyShadows(a, v, b, w);
      } else if |b| < |a| {
        SharedKeyShadows(b, w, a, v);
      } else {
        SameLengthSameId(a, v, b, w);
      }
    }
  }

  /** Two contracts that read and write each other's schema. */
  lemma KeysOfTwoContractsCollide()
    ensures Key("Vault", "::v1") == Key("Vault::", "v1")
  {
    assert "Vault" + SEPARATOR == "Vault::";
    assert "Vault::" + "::v1" == "Vault::::v1" == "Vault::" + SEPARATOR + "v1";
  }

  /** Within one contract, different versions have different keys. */
  lemma VersionsKeepApart(contractId: string, v: string, w: string)
    requires Key(contractId, v) == Key(contractId, w)
    ensures v == w
  {
    assert Key(contractId, v)[|contractId| + 2..] == v;
    assert Key(contractId, w)[|contractId| + 2..] == w;
  }
}
