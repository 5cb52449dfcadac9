/**
  The aggregation in `main`: the structure check, then every entry of `mods`
  (numbered from 1), then the duplicate check, concatenated into one error and
  one warning list; the run exits with 0 exactly when there is no error.
 */
module Validator {
  import opened JsonValues
  import opened Diagnostics
  import opened EntryValidation
  import opened Duplicates
  import opened StoreStructure

  datatype Report = Report(errors: seq<Diagnostic>, warnings: seq<Diagnostic>)

  /** The members of a list of JSON objects. */
  function Objects(items: seq<Json>): (mods: seq<Object>)
    requires forall i :: 0 <= i < |items| ==> items[i].JObj?
    ensures |mods| == |items|
    ensures forall i :: 0 <= i < |items| ==> mods[i] == items[i].fields
  {
    if items == [] then [] else Objects(items[..|items| - 1]) + [items[|items| - 1].fields]
  }

  /**
    What `main` needs for `data.get('mods', [])` to be iterated without
    raising: `mods` is absent, a list of objects, or a value that iterates
    nothing (an empty string or an empty object).
   */
  predicate IterableMods(store: Object)
  {
    "mods" !in store ||
    (store["mods"].JArr? && forall i :: 0 <= i < |store["mods"].items| ==> store["mods"].items[i].JObj?) ||
    store["mods"] == JStr("") || store["mods"] == JObj(map[])
  }

  /** The mods `main` iterates over. */
  function ModsOf(store: Object): seq<Object>
    requires IterableMods(store)
  {
    if HasModList(store) then Objects(store["mods"].items) else []
  }

  predicate AllWellTyped(mods: seq<Object>)
  {
    forall i :: 0 <= i < |mods| ==> WellTypedEntry(mods[i])
  }

  /** Every entry passes the script without raising, and every name is hashable. */
  predicate Checkable(store: Object)
  {
    IterableMods(store) && AllWellTyped(ModsOf(store)) && HashableNames(ModsOf(store))
  }

  /** The error list of each entry, in order, the k-th (0-based) numbered `k + 1`. */
  function EntryErrorLists(mods: seq<Object>): seq<seq<Diagnostic>>
    requires AllWellTyped(mods)
  {
    seq(|mods|, i requires 0 <= i < |mods| => EntryErrors(mods[i], i + 1))
  }

  /** The warning list of each entry, in order. */
  function EntryWarningLists(mods: seq<Object>): seq<seq<Diagnostic>>
    requires AllWellTyped(mods)
  {
    seq(|mods|, i requires 0 <= i < |mods| => EntryWarnings(mods[i], i + 1))
  }

  /** The lists of a sequence of lists, one after the other (`list.extend` in a loop). */
  function Flatten(lists: seq<seq<Diagnostic>>): seq<Diagnostic>
  {
    if lists == [] then [] else Flatten(lists[..|lists| - 1]) + lists[|lists| - 1]
  }

  /** The errors of all entries. */
  function EntriesErrors(mods: seq<Object>): seq<Diagnostic>
    requires AllWellTyped(mods)
  {
    Flatten(EntryErrorLists(mods))
  }

  /** The warnings of all entries. */
  function EntriesWarnings(mods: seq<Object>): seq<Diagnostic>
    requires AllWellTyped(mods)
  {
    Flatten(EntryWarningLists(mods))
  }

  /** The two lists `main` accumulates. */
  function Validate(store: Object): Report
    requires Checkable(store)
  {
    var mods := ModsOf(store);
    Report(StructureErrors(store) + EntriesErrors(mods) + DuplicateErrors(mods),
           StructureWarnings(store) + EntriesWarnings(mods))
  }

  /** The value `main` returns for the two lists: warnings never make the run fail. */
  function ExitStatus(report: Report): (status: int)
    ensures status == 0 || status == 1
    ensures status == 0 <==> report.errors == []
  {
    if report.errors == [] && report.warnings == [] then 0
    else if report.errors == [] then 0
    else 1
  }

  lemma EntriesStep(mods: seq<Object>, i: nat)
    requires AllWellTyped(mods) && i < |mods|
    ensures EntriesErrors(mods[..i + 1]) == EntriesErrors(mods[..i]) + EntryErrors(mods[i], i + 1)
    ensures EntriesWarnings(mods[..i + 1]) == EntriesWarnings(mods[..i]) + EntryWarnings(mods[i], i + 1)
  {
    assert mods[..i + 1][..i] == mods[..i];
    var errs, warns := EntryErrorLists(mods[..i + 1]), EntryWarningLists(mods[..i + 1]);
    assert errs[..i] == EntryErrorLists(mods[..i]) && warns[..i] == EntryWarningLists(mods[..i]);
  }

  /** The loop of `main` over the entries, extending the two lists with each entry's. */
  method ValidateEntries(mods: seq<Object>) returns (errors: seq<Diagnostic>, warnings: seq<Diagnostic>)
    requires AllWellTyped(mods)
    ensures errors == EntriesErrors(mods)
    ensures warnings == EntriesWarnings(mods)
  {
    errors, warnings := [], [];
    for i := 0 to |mods|
      invariant errors == EntriesErrors(mods[..i])
      invariant warnings == EntriesWarnings(mods[..i])
    {
      var modErrors, modWarnings := ValidateModEntry(mods[i], i + 1);
      EntriesStep(mods, i);
      errors := errors + modErrors;
      warnings := warnings + modWarnings;
    }
    assert mods[..|mods|] == mods;
  }

  method Run(store: Object) returns (errors: seq<Diagnostic>, warnings: seq<Diagnostic>, status: int)
    requires Checkable(store)
    ensures Report(errors, warnings) == Validate(store)
    ensures status == ExitStatus(Validate(store))
  {
    errors, warnings := ValidateStoreStructure(store);
    var mods := ModsOf(store);
    var entryErrors, entryWarnings := ValidateEntries(mods);
    errors, warnings := errors + entryErrors, warnings + entryWarnings;
    var duplicateErrors := CheckDuplicates(mods);
    errors := errors + duplicateErrors;
    if errors == [] && warnings == [] {
      status := 0;
    } else if errors == [] {
      status := 0;
    } else {
      status := 1;
    }
  }

  // ---------------------------------------------------------------------------
  // Properties of a run

  /**
    The entries' diagnostics are per-entry ones numbered from 1 up to the
    number of mods; the errors are of error kinds, the warnings of warning kinds.
   */
  lemma {:induction false} EntriesClassified(mods: seq<Object>)
    requires AllWellTyped(mods)
    ensures forall d :: d in EntriesErrors(mods) ==>
              d.IsEntryKind() && !d.IsWarningKind() && 1 <= d.at.index <= |mods|
    ensures forall d :: d in EntriesWarnings(mods) ==>
              d.IsEntryKind() && d.IsWarningKind() && 1 <= d.at.index <= |mods|
  {
    if mods != [] {
      var n := |mods| - 1;
      EntriesClassified(mods[..n]);
      EntriesStep(mods, n);
      assert mods[..n + 1] == mods;
      assert AllWellTyped(mods[..n]);
      EntryErrorsClassified(mods[n], n + 1);
      EntryWarningsClassified(mods[n], n + 1);
    }
  }

  /** A concatenation of lists is empty exactly when every list is. */
  lemma {:induction false} FlattenEmpty(lists: seq<seq<Diagnostic>>)
    ensures Flatten(lists) == [] <==> forall i :: 0 <= i < |lists| ==> lists[i] == []
  {
    if lists != [] {
      var n := |lists| - 1;
      FlattenEmpty(lists[..n]);
      assert forall i :: 0 <= i < n ==> lists[..n][i] == lists[i];
    }
  }

  /**
    The run exits with 0 exactly when the structure check, every entry and the
    duplicate check all report no error, whatever the warnings.
   */
  lemma PassesIffNoErrors(store: Object)
    requires Checkable(store)
    ensures var mods := ModsOf(store);
            var entries := EntryErrorLists(mods);
            ExitStatus(Validate(store)) == 0 <==>
              StructureErrors(store) == [] &&
              (forall i :: 0 <= i < |entries| ==> entries[i] == []) &&
              DuplicateErrors(mods) == []
  {
    FlattenEmpty(EntryErrorLists(ModsOf(store)));
  }

  /** Two mods whose names are the same dictionary key make the run fail. */
  lemma DuplicateNameFails(store: Object, a: nat, b: nat)
    requires Checkable(store)
    requires a < b < |ModsOf(store)| && Key(ModsOf(store)[a]) == Key(ModsOf(store)[b])
    ensures ExitStatus(Validate(store)) == 1
  {
    var mods := ModsOf(store);
    FirstOccurrenceBefore(mods, Key(mods[b]), a);
    ReportedIffSeenBefore(mods, b);
    var first := FirstOccurrence(mods, Key(mods[b]));
    assert DuplicateName(NameOf(mods[b]), first, b) in Validate(store).errors;
  }

  /** A member of one of the lists is a member of their concatenation. */
  lemma {:induction false} FlattenMember(lists: seq<seq<Diagnostic>>, i: nat, d: Diagnostic)
    requires i < |lists| && d in lists[i]
    ensures d in Flatten(lists)
  {
    var n := |lists| - 1;
    if i < n {
      assert lists[..n][i] == lists[i];
      FlattenMember(lists[..n], i, d);
    }
  }

  /** Any error of any entry makes the run fail. */
  lemma EntryErrorFails(store: Object, i: nat, d: Diagnostic)
    requires Checkable(store)
    requires i < |ModsOf(store)| && d in EntryErrorLists(ModsOf(store))[i]
    ensures d in Validate(store).errors
    ensures ExitStatus(Validate(store)) == 1
  {
    FlattenMember(EntryErrorLists(ModsOf(store)), i, d);
  }

  /** A mod that lacks a required field makes the run fail. */
  lemma MissingFieldFails(store: Object, i: nat, f: string)
    requires Checkable(store)
    requires i < |ModsOf(store)| && f in RequiredFields && f !in ModsOf(store)[i]
    ensures ExitStatus(Validate(store)) == 1
  {
    var mods := ModsOf(store);
    var d := MissingField(SubjectOf(mods[i], i + 1), f);
    assert d in EntryErrorLists(mods)[i] by {
      MissingFieldIsError(mods[i], i + 1, f);
    }
    EntryErrorFails(store, i, d);
  }

  /** Every warning of a run is of a warning kind and every error of an error kind. */
  lemma RunDiagnosticsClassified(store: Object)
    requires Checkable(store)
    ensures forall d :: d in Validate(store).warnings ==> d.IsWarningKind()
    ensures forall d :: d in Validate(store).errors ==> !d.IsWarningKind()
  {
    var mods := ModsOf(store);
    EntriesClassified(mods);
    DuplicateErrorsCite(mods);
    StructureWarningsReported(store, JNull, 0);
  }

  /** `mod_count` never changes the errors, and so never the exit status. */
  lemma ModCountNeverFails(store: Object, v: Json)
    requires Checkable(store)
    ensures Checkable(store["mod_count" := v]) && Checkable(store - {"mod_count"})
    ensures Validate(store["mod_count" := v]).errors == Validate(store - {"mod_count"}).errors
    ensures ExitStatus(Validate(store["mod_count" := v])) == ExitStatus(Validate(store - {"mod_count"}))
  {
    var with, without := store["mod_count" := v], store - {"mod_count"};
    assert "mods" in with <==> "mods" in store;
    assert "mods" in without <==> "mods" in store;
    if "mods" in store {
      assert with["mods"] == store["mods"] == without["mods"];
    }
    assert ModsOf(with) == ModsOf(store) == ModsOf(without);
    ModCountNeverAnError(store, v);
  }

  /** A store without `mods` fails with exactly the missing-`mods` error. */
  lemma MissingModsFails(store: Object)
    requires "mods" !in store
    ensures Checkable(store)
    ensures Validate(store).errors == [MissingMods]
    ensures ExitStatus(Validate(store)) == 1
  {
    assert ModsOf(store) == [];
  }

  // The example lemmas take their inputs as parameters fixed by `requires`:
  // given a literal argument, the verifier would unfold the recursive definitions eagerly.
  /** `{"version": "1.0", "mods": []}` passes with no error and no warning. */
  lemma EmptyStorePasses(store: Object)
    requires store == map["version" := JStr("1.0"), "mods" := JArr([])]
    ensures Checkable(store)
    ensures Validate(store) == Report([], [])
    ensures ExitStatus(Validate(store)) == 0
  {
    assert ModsOf(store) == [];
  }
}
