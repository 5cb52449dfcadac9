/**
  `validate_store_structure`: the checks on the top-level store object. A
  missing store `version` is a warning; a missing or non-list `mods` is an
  error that ends the check early; a `mod_count` that differs from the number
  of mods is a warning.
 */
module StoreStructure {
  import opened JsonValues
  import opened Diagnostics

  /** `mods` is present and a list. */
  predicate HasModList(store: Object)
  {
    "mods" in store && store["mods"].JArr?
  }

  /** The errors the structure check returns. */
  function StructureErrors(store: Object): seq<Diagnostic>
  {
    if "mods" !in store then [MissingMods]
    else if !store["mods"].JArr? then [ModsNotArray]
    else []
  }

  /** `mod_count` is present and, compared with Python's `!=`, differs from the number of mods. */
  predicate ModCountDiffers(store: Object)
    requires HasModList(store)
  {
    "mod_count" in store && !EqualsInt(store["mod_count"], |store["mods"].items|)
  }

  /** The warnings the structure check returns. */
  function StructureWarnings(store: Object): seq<Diagnostic>
  {
    (if "version" !in store then [MissingStoreVersion] else []) +
    (if HasModList(store) && ModCountDiffers(store)
     then [ModCountMismatch(store["mod_count"], |store["mods"].items|)] else [])
  }

  method ValidateStoreStructure(store: Object) returns (errors: seq<Diagnostic>, warnings: seq<Diagnostic>)
    ensures errors == StructureErrors(store)
    ensures warnings == StructureWarnings(store)
  {
    errors, warnings := [], [];
    if "version" !in store {
      warnings := warnings + [MissingStoreVersion];
    }
    if "mods" !in store {
      errors := errors + [MissingMods];
      return;
    }
    if !store["mods"].JArr? {
      errors := errors + [ModsNotArray];
      return;
    }
    if "mod_count" in store && !EqualsInt(store["mod_count"], |store["mods"].items|) {
      warnings := warnings + [ModCountMismatch(store["mod_count"], |store["mods"].items|)];
    }
  }

  // ---------------------------------------------------------------------------
  // Properties

  /**
    The structure check reports at most one error, and reports one exactly
    when `mods` is missing or not a list; a missing `mods` is reported as
    missing, not as a non-list.
   */
  lemma AtMostOneStructureError(store: Object)
    ensures |StructureErrors(store)| <= 1
    ensures StructureErrors(store) != [] <==> !HasModList(store)
    ensures MissingMods in StructureErrors(store) <==> "mods" !in store
    ensures ModsNotArray in StructureErrors(store) <==> "mods" in store && !store["mods"].JArr?
  {
  }

  /**
    The warnings: a missing store version is always reported, also beside a
    `mods` error; a `mod_count` mismatch only once `mods` has passed as a list,
    because a `mods` error returns before the count is compared.
   */
  lemma StructureWarningsReported(store: Object, declared: Json, actual: nat)
    ensures MissingStoreVersion in StructureWarnings(store) <==> "version" !in store
    ensures ModCountMismatch(declared, actual) in StructureWarnings(store) <==>
              HasModList(store) && "mod_count" in store && store["mod_count"] == declared &&
              |store["mods"].items| == actual && !EqualsInt(declared, actual)
    ensures StructureErrors(store) != [] ==> forall d :: d in StructureWarnings(store) ==> d == MissingStoreVersion
    ensures forall d :: d in StructureWarnings(store) ==> d.IsWarningKind()
    ensures forall d :: d in StructureErrors(store) ==> !d.IsWarningKind()
  {
  }

  /** `mod_count` never adds an error: the errors are the same whatever it holds, or without it. */
  lemma ModCountNeverAnError(store: Object, v: Json)
    ensures StructureErrors(store["mod_count" := v]) == StructureErrors(store - {"mod_count"})
  {
    var with, without := store["mod_count" := v], store - {"mod_count"};
    assert "mods" in with <==> "mods" in without;
    if "mods" in with {
      assert with["mods"] == without["mods"];
    }
  }

  // The example lemmas take their inputs as parameters fixed by `requires`:
  // given a literal argument, the verifier would unfold the recursive definitions eagerly.
  /** `{"mods": "x", "mod_count": 5}`: the non-list `mods` error and the version warning, and no count warning. */
  lemma ModsNotArrayExample(store: Object)
    requires store == map["mods" := JStr("x"), "mod_count" := JNum(5)]
    ensures StructureErrors(store) == [ModsNotArray]
    ensures StructureWarnings(store) == [MissingStoreVersion]
  {
    assert "version" !in store;
  }

  /** `{"version": "1.0", "mods": [], "mod_count": true}`: `True == 0` is false, so the count differs. */
  lemma ModCountComparedAsPythonExample(store: Object)
    requires store == map["version" := JStr("1.0"), "mods" := JArr([]), "mod_count" := JBool(true)]
    ensures StructureErrors(store) == []
    ensures StructureWarnings(store) == [ModCountMismatch(JBool(true), 0)]
  {
  }
}
