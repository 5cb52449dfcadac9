/**
  `validate_mod_entry`: the checks applied to one mod entry, in the order the
  script runs them. The defining functions say what the two lists hold;
  `ValidateModEntry` builds them the way the script does, with two loops over
  the required fields and conditional appends in between.
 */
module EntryValidation {
  import opened JsonValues
  import opened Predicates
  import opened Diagnostics

  const RequiredFields: seq<string> := ["name", "version", "type", "author", "description", "homepage", "download_url"]
  const ValidTypes: seq<string> := ["ui", "graphics", "tactics", "database", "misc"]

  /**
    What an entry must satisfy for the script not to raise: the version is
    matched against a regular expression, so it must be a string, and the
    description is measured with `len`, so it must be a string, list or object.
   */
  predicate WellTypedEntry(mod: Object)
  {
    ("version" in mod ==> mod["version"].JStr?) &&
    ("description" in mod ==> Sized(mod["description"]))
  }

  /** The optional fields that must hold arrays when present. */
  predicate IsArrayField(field: string)
  {
    field == "dependencies" || field == "conflicts"
  }

  /** `mod.get('name', 'Unknown')`. */
  function Label(mod: Object): Json
  {
    if "name" in mod then mod["name"] else JStr("Unknown")
  }

  function SubjectOf(mod: Object, index: nat): Subject
  {
    Subject(index, Label(mod))
  }

  /** Exact, case-sensitive list membership: only a string equal to one of the five types. */
  predicate IsValidType(j: Json)
  {
    j.JStr? && j.s in ValidTypes
  }

  /** `validate_url` of a JSON value: `urlparse` of anything but a string raises or splits to nothing. */
  predicate IsValidUrlValue(j: Json)
  {
    j.JStr? && ValidUrl(j.s)
  }

  /** `isinstance(v, str) and not v.strip()`. */
  predicate IsBlankString(j: Json)
  {
    j.JStr? && IsBlank(j.s)
  }

  predicate NoDuplicates(fields: seq<string>)
  {
    forall i, j :: 0 <= i < j < |fields| ==> fields[i] != fields[j]
  }

  // ---------------------------------------------------------------------------
  // What the two lists hold

  /** One "Missing required field" error per field of `fields` absent from the entry, in order. */
  function MissingFieldErrors(mod: Object, at: Subject, fields: seq<string>): seq<Diagnostic>
  {
    if fields == [] then []
    else
      var f := fields[|fields| - 1];
      MissingFieldErrors(mod, at, fields[..|fields| - 1]) + (if f !in mod then [MissingField(at, f)] else [])
  }

  /** `type` present and not one of the five types. */
  function TypeErrors(mod: Object, at: Subject): seq<Diagnostic>
  {
    if "type" in mod && !IsValidType(mod["type"]) then [InvalidType(at, mod["type"])] else []
  }

  /** `version` present and not matching the version pattern. */
  function VersionErrors(mod: Object, at: Subject): seq<Diagnostic>
    requires WellTypedEntry(mod)
  {
    if "version" in mod && !ValidVersion(mod["version"].s) then [InvalidVersion(at, mod["version"])] else []
  }

  /** `homepage` present and not a valid URL. */
  function HomepageErrors(mod: Object, at: Subject): seq<Diagnostic>
  {
    if "homepage" in mod && !IsValidUrlValue(mod["homepage"]) then [InvalidHomepage(at, mod["homepage"])] else []
  }

  /** `download_url` present and not a valid URL. */
  function DownloadUrlErrors(mod: Object, at: Subject): seq<Diagnostic>
  {
    if "download_url" in mod && !IsValidUrlValue(mod["download_url"]) then [InvalidDownloadUrl(at, mod["download_url"])] else []
  }

  /** One "cannot be empty" error per field of `fields` present as a blank string, in order. */
  function EmptyFieldErrors(mod: Object, at: Subject, fields: seq<string>): seq<Diagnostic>
  {
    if fields == [] then []
    else
      var f := fields[|fields| - 1];
      EmptyFieldErrors(mod, at, fields[..|fields| - 1]) +
      (if f in mod && IsBlankString(mod[f]) then [EmptyField(at, f)] else [])
  }

  /** An optional field that is present and holds something other than an array. */
  function ArrayFieldError(mod: Object, at: Subject, field: string): seq<Diagnostic>
  {
    if field in mod && !mod[field].JArr? then [NotAnArray(at, field)] else []
  }

  /** The errors `validate_mod_entry(mod, index)` returns. */
  function EntryErrors(mod: Object, index: nat): seq<Diagnostic>
    requires WellTypedEntry(mod)
  {
    var at := SubjectOf(mod, index);
    MissingFieldErrors(mod, at, RequiredFields) +
    TypeErrors(mod, at) + VersionErrors(mod, at) + HomepageErrors(mod, at) + DownloadUrlErrors(mod, at) +
    EmptyFieldErrors(mod, at, RequiredFields) +
    ArrayFieldError(mod, at, "dependencies") + ArrayFieldError(mod, at, "conflicts")
  }

  /** A truthy `changelog_url` that is not a valid URL. */
  function ChangelogWarnings(mod: Object, at: Subject): seq<Diagnostic>
  {
    if "changelog_url" in mod && Truthy(mod["changelog_url"]) && !IsValidUrlValue(mod["changelog_url"])
    then [InvalidChangelogUrl(at, mod["changelog_url"])] else []
  }

  /** A description longer than the maximum, with its actual length. */
  function DescriptionWarnings(mod: Object, at: Subject): seq<Diagnostic>
    requires WellTypedEntry(mod)
  {
    if "description" in mod && Size(mod["description"]) > MaxDescriptionLength
    then [DescriptionTooLong(at, Size(mod["description"]))] else []
  }

  /** The warnings `validate_mod_entry(mod, index)` returns. */
  function EntryWarnings(mod: Object, index: nat): seq<Diagnostic>
    requires WellTypedEntry(mod)
  {
    var at := SubjectOf(mod, index);
    ChangelogWarnings(mod, at) + DescriptionWarnings(mod, at)
  }

  // ---------------------------------------------------------------------------
  // The script's procedure

  lemma MissingFieldErrorsStep(mod: Object, at: Subject, fields: seq<string>, i: nat)
    requires i < |fields|
    ensures MissingFieldErrors(mod, at, fields[..i + 1]) ==
              MissingFieldErrors(mod, at, fields[..i]) + (if fields[i] !in mod then [MissingField(at, fields[i])] else [])
  {
    assert fields[..i + 1][..i] == fields[..i];
  }

  lemma EmptyFieldErrorsStep(mod: Object, at: Subject, fields: seq<string>, i: nat)
    requires i < |fields|
    ensures EmptyFieldErrors(mod, at, fields[..i + 1]) ==
              EmptyFieldErrors(mod, at, fields[..i]) + (if fields[i] in mod && IsBlankString(mod[fields[i]]) then [EmptyField(at, fields[i])] else [])
  {
    assert fields[..i + 1][..i] == fields[..i];
  }

  lemma AppendAssoc(a: seq<Diagnostic>, b: seq<Diagnostic>, c: seq<Diagnostic>)
    ensures a + b + c == a + (b + c)
  {
  }

  /** The loop over the required fields, appending an error for each absent one. */
  method CheckRequiredFields(mod: Object, at: Subject, errors: seq<Diagnostic>) returns (result: seq<Diagnostic>)
    ensures result == errors + MissingFieldErrors(mod, at, RequiredFields)
  {
    result := errors;
    for i := 0 to |RequiredFields|
      invariant result == errors + MissingFieldErrors(mod, at, RequiredFields[..i])
    {
      var field := RequiredFields[i];
      MissingFieldErrorsStep(mod, at, RequiredFields, i);
      if field !in mod {
        AppendAssoc(errors, MissingFieldErrors(mod, at, RequiredFields[..i]), [MissingField(at, field)]);
        result := result + [MissingField(at, field)];
      }
    }
    assert RequiredFields[..|RequiredFields|] == RequiredFields;
  }

  /** The loop over the required fields, appending an error for each one present as a blank string. */
  method CheckEmptyFields(mod: Object, at: Subject, errors: seq<Diagnostic>) returns (result: seq<Diagnostic>)
    ensures result == errors + EmptyFieldErrors(mod, at, RequiredFields)
  {
    result := errors;
    for i := 0 to |RequiredFields|
      invariant result == errors + EmptyFieldErrors(mod, at, RequiredFields[..i])
    {
      var field := RequiredFields[i];
      EmptyFieldErrorsStep(mod, at, RequiredFields, i);
      if field in mod && IsBlankString(mod[field]) {
        AppendAssoc(errors, EmptyFieldErrors(mod, at, RequiredFields[..i]), [EmptyField(at, field)]);
        result := result + [EmptyField(at, field)];
      }
    }
    assert RequiredFields[..|RequiredFields|] == RequiredFields;
  }

  /** The type, version and URL checks, each appending one error when it fails. */
  method CheckFormats(mod: Object, at: Subject, errors: seq<Diagnostic>) returns (result: seq<Diagnostic>)
    requires WellTypedEntry(mod)
    ensures result == errors + TypeErrors(mod, at) + VersionErrors(mod, at) +
                      HomepageErrors(mod, at) + DownloadUrlErrors(mod, at)
  {
    result := errors;
    if "type" in mod && !IsValidType(mod["type"]) {
      result := result + [InvalidType(at, mod["type"])];
    }
    ghost var typed := result;
    if "version" in mod && !ValidVersion(mod["version"].s) {
      result := result + [InvalidVersion(at, mod["version"])];
    }
    ghost var versioned := result;
    if "homepage" in mod && !IsValidUrlValue(mod["homepage"]) {
      result := result + [InvalidHomepage(at, mod["homepage"])];
    }
    ghost var homepaged := result;
    if "download_url" in mod && !IsValidUrlValue(mod["download_url"]) {
      result := result + [InvalidDownloadUrl(at, mod["download_url"])];
    }
    assert typed == errors + TypeErrors(mod, at);
    assert versioned == typed + VersionErrors(mod, at);
    assert homepaged == versioned + HomepageErrors(mod, at);
    assert result == homepaged + DownloadUrlErrors(mod, at);
  }

  /** The changelog URL and description length checks, which only warn. */
  method CheckAdvisories(mod: Object, at: Subject) returns (warnings: seq<Diagnostic>)
    requires WellTypedEntry(mod)
    ensures warnings == ChangelogWarnings(mod, at) + DescriptionWarnings(mod, at)
  {
    warnings := [];
    if "changelog_url" in mod && Truthy(mod["changelog_url"]) && !IsValidUrlValue(mod["changelog_url"]) {
      warnings := warnings + [InvalidChangelogUrl(at, mod["changelog_url"])];
    }
    ghost var changelogged := warnings;
    if "description" in mod && Size(mod["description"]) > MaxDescriptionLength {
      warnings := warnings + [DescriptionTooLong(at, Size(mod["description"]))];
    }
    assert changelogged == ChangelogWarnings(mod, at);
    assert warnings == changelogged + DescriptionWarnings(mod, at);
  }

  /** The two array checks, on `dependencies` then `conflicts`. */
  method CheckArrayFields(mod: Object, at: Subject, errors: seq<Diagnostic>) returns (result: seq<Diagnostic>)
    ensures result == errors + ArrayFieldError(mod, at, "dependencies") + ArrayFieldError(mod, at, "conflicts")
  {
    result := errors;
    if "dependencies" in mod && !mod["dependencies"].JArr? {
      result := result + [NotAnArray(at, "dependencies")];
    }
    ghost var dependencies := result;
    if "conflicts" in mod && !mod["conflicts"].JArr? {
      result := result + [NotAnArray(at, "conflicts")];
    }
    assert dependencies == errors + ArrayFieldError(mod, at, "dependencies");
    assert result == dependencies + ArrayFieldError(mod, at, "conflicts");
  }

  method ValidateModEntry(mod: Object, index: nat) returns (errors: seq<Diagnostic>, warnings: seq<Diagnostic>)
    requires WellTypedEntry(mod)
    ensures errors == EntryErrors(mod, index)
    ensures warnings == EntryWarnings(mod, index)
  {
    var at := SubjectOf(mod, index);
    errors := CheckRequiredFields(mod, at, []);
    errors := CheckFormats(mod, at, errors);
    warnings := CheckAdvisories(mod, at);
    errors := CheckEmptyFields(mod, at, errors);
    errors := CheckArrayFields(mod, at, errors);
    assert [] + MissingFieldErrors(mod, at, RequiredFields) == MissingFieldErrors(mod, at, RequiredFields);
  }

  // ---------------------------------------------------------------------------
  // The lists per field

  /** The missing-field errors name absent fields of `fields`, all for the entry's subject. */
  lemma {:induction false} MissingFieldErrorsCite(mod: Object, at: Subject, fields: seq<string>)
    ensures forall d :: d in MissingFieldErrors(mod, at, fields) ==>
              d.MissingField? && d.at == at && d.field in fields && d.field !in mod
  {
    if fields != [] {
      MissingFieldErrorsCite(mod, at, fields[..|fields| - 1]);
    }
  }

  /** Each absent field of a list without repetitions gets one missing-field error, and no other field does. */
  lemma {:induction false} MissingFieldErrorsCount(mod: Object, at: Subject, fields: seq<string>, f: string)
    requires NoDuplicates(fields)
    ensures Occurrences(MissingFieldErrors(mod, at, fields), MissingField(at, f)) ==
              if f in fields && f !in mod then 1 else 0
  {
    if fields != [] {
      var init, last := fields[..|fields| - 1], fields[|fields| - 1];
      MissingFieldErrorsCount(mod, at, init, f);
      OccurrencesAppend(MissingFieldErrors(mod, at, init),
                        if last !in mod then [MissingField(at, last)] else [], MissingField(at, f));
      assert f in fields <==> f in init || f == last;
      assert f == last ==> f !in init;
    }
  }

  /** The empty-field errors name fields of `fields` present as blank strings, all for the entry's subject. */
  lemma {:induction false} EmptyFieldErrorsCite(mod: Object, at: Subject, fields: seq<string>)
    ensures forall d :: d in EmptyFieldErrors(mod, at, fields) ==>
              d.EmptyField? && d.at == at && d.field in fields && d.field in mod && IsBlankString(mod[d.field])
  {
    if fields != [] {
      EmptyFieldErrorsCite(mod, at, fields[..|fields| - 1]);
    }
  }

  /** Each field of a list without repetitions present as a blank string gets one empty-field error. */
  lemma {:induction false} EmptyFieldErrorsCount(mod: Object, at: Subject, fields: seq<string>, f: string)
    requires NoDuplicates(fields)
    ensures Occurrences(EmptyFieldErrors(mod, at, fields), EmptyField(at, f)) ==
              if f in fields && f in mod && IsBlankString(mod[f]) then 1 else 0
  {
    if fields != [] {
      var init, last := fields[..|fields| - 1], fields[|fields| - 1];
      EmptyFieldErrorsCount(mod, at, init, f);
      OccurrencesAppend(EmptyFieldErrors(mod, at, init),
                        if last in mod && IsBlankString(mod[last]) then [EmptyField(at, last)] else [], EmptyField(at, f));
      assert f in fields <==> f in init || f == last;
      assert f == last ==> f !in init;
    }
  }

  /** The missing-field list holds nothing but missing-field errors. */
  lemma {:induction false} OnlyMissingFields(mod: Object, at: Subject, fields: seq<string>, d: Diagnostic)
    requires !d.MissingField?
    ensures Occurrences(MissingFieldErrors(mod, at, fields), d) == 0
  {
    if fields != [] {
      var init, last := fields[..|fields| - 1], fields[|fields| - 1];
      OnlyMissingFields(mod, at, init, d);
      OccurrencesAppend(MissingFieldErrors(mod, at, init), if last !in mod then [MissingField(at, last)] else [], d);
    }
  }

  /** The empty-field list holds nothing but empty-field errors. */
  lemma {:induction false} OnlyEmptyFields(mod: Object, at: Subject, fields: seq<string>, d: Diagnostic)
    requires !d.EmptyField?
    ensures Occurrences(EmptyFieldErrors(mod, at, fields), d) == 0
  {
    if fields != [] {
      var init, last := fields[..|fields| - 1], fields[|fields| - 1];
      OnlyEmptyFields(mod, at, init, d);
      OccurrencesAppend(EmptyFieldErrors(mod, at, init),
                        if last in mod && IsBlankString(mod[last]) then [EmptyField(at, last)] else [], d);
    }
  }

  lemma RequiredFieldsDistinct()
    ensures NoDuplicates(RequiredFields)
  {
  }

  /** The count of a diagnostic in the concatenation of the entry's eight lists is the sum of its counts. */
  lemma Count8(m: seq<Diagnostic>, t: seq<Diagnostic>, v: seq<Diagnostic>, h: seq<Diagnostic>,
               u: seq<Diagnostic>, e: seq<Diagnostic>, a: seq<Diagnostic>, c: seq<Diagnostic>, d: Diagnostic)
    ensures Occurrences(m + t + v + h + u + e + a + c, d) ==
              Occurrences(m, d) + Occurrences(t, d) + Occurrences(v, d) + Occurrences(h, d) +
              Occurrences(u, d) + Occurrences(e, d) + Occurrences(a, d) + Occurrences(c, d)
  {
    OccurrencesAppend(m, t, d);
    OccurrencesAppend(m + t, v, d);
    OccurrencesAppend(m + t + v, h, d);
    OccurrencesAppend(m + t + v + h, u, d);
    OccurrencesAppend(m + t + v + h + u, e, d);
    OccurrencesAppend(m + t + v + h + u + e, a, d);
    OccurrencesAppend(m + t + v + h + u + e + a, c, d);
  }

  /** `Count8` on the entry's own lists. */
  lemma CountInEntryErrors(mod: Object, index: nat, d: Diagnostic)
    requires WellTypedEntry(mod)
    ensures var at := SubjectOf(mod, index);
            Occurrences(EntryErrors(mod, index), d) ==
              Occurrences(MissingFieldErrors(mod, at, RequiredFields), d) +
              Occurrences(TypeErrors(mod, at), d) + Occurrences(VersionErrors(mod, at), d) +
              Occurrences(HomepageErrors(mod, at), d) + Occurrences(DownloadUrlErrors(mod, at), d) +
              Occurrences(EmptyFieldErrors(mod, at, RequiredFields), d) +
              Occurrences(ArrayFieldError(mod, at, "dependencies"), d) + Occurrences(ArrayFieldError(mod, at, "conflicts"), d)
  {
    var at := SubjectOf(mod, index);
    Count8(MissingFieldErrors(mod, at, RequiredFields),
           TypeErrors(mod, at), VersionErrors(mod, at), HomepageErrors(mod, at), DownloadUrlErrors(mod, at),
           EmptyFieldErrors(mod, at, RequiredFields),
           ArrayFieldError(mod, at, "dependencies"), ArrayFieldError(mod, at, "conflicts"), d);
  }

  /**
    For every field, the entry's errors hold one "Missing required field" error
    naming it exactly when it is a required field the entry lacks, and none otherwise.
   */
  lemma MissingFieldReportedOnce(mod: Object, index: nat, f: string)
    requires WellTypedEntry(mod)
    ensures Occurrences(EntryErrors(mod, index), MissingField(SubjectOf(mod, index), f)) ==
              if f in RequiredFields && f !in mod then 1 else 0
  {
    var at := SubjectOf(mod, index);
    RequiredFieldsDistinct();
    MissingFieldErrorsCount(mod, at, RequiredFields, f);
    OnlyEmptyFields(mod, at, RequiredFields, MissingField(at, f));
    CountInEntryErrors(mod, index, MissingField(at, f));
    CheckCounts(mod, at, MissingField(at, f));
  }

  /** A missing required field is among the errors of its entry. */
  lemma MissingFieldIsError(mod: Object, index: nat, f: string)
    requires WellTypedEntry(mod) && f in RequiredFields && f !in mod
    ensures MissingField(SubjectOf(mod, index), f) in EntryErrors(mod, index)
  {
    MissingFieldReportedOnce(mod, index, f);
    OccurrencesPositive(EntryErrors(mod, index), MissingField(SubjectOf(mod, index), f));
  }


  /** Every diagnostic of `ds` is a per-entry one citing `at`, of a warning kind exactly when `warning`. */
  predicate CitesAll(ds: seq<Diagnostic>, at: Subject, warning: bool)
  {
    forall d :: d in ds ==> d.IsEntryKind() && d.at == at && d.IsWarningKind() == warning
  }

  lemma CitesConcat(a: seq<Diagnostic>, b: seq<Diagnostic>, at: Subject, warning: bool)
    requires CitesAll(a, at, warning) && CitesAll(b, at, warning)
    ensures CitesAll(a + b, at, warning)
  {
  }

  /**
    Every warning of an entry cites that entry's index and name and is of a
    warning kind: the changelog and description checks only ever warn.
   */
  lemma EntryWarningsClassified(mod: Object, index: nat)
    requires WellTypedEntry(mod)
    ensures CitesAll(EntryWarnings(mod, index), Subject(index, Label(mod)), true)
  {
  }

  lemma ChecksClassified(mod: Object, at: Subject)
    requires WellTypedEntry(mod)
    ensures CitesAll(TypeErrors(mod, at), at, false) && CitesAll(VersionErrors(mod, at), at, false)
    ensures CitesAll(HomepageErrors(mod, at), at, false) && CitesAll(DownloadUrlErrors(mod, at), at, false)
    ensures CitesAll(ArrayFieldError(mod, at, "dependencies"), at, false)
    ensures CitesAll(ArrayFieldError(mod, at, "conflicts"), at, false)
  {
  }

  /** Every error of an entry cites that entry's index and name and is of an error kind. */
  lemma EntryErrorsClassified(mod: Object, index: nat)
    requires WellTypedEntry(mod)
    ensures CitesAll(EntryErrors(mod, index), Subject(index, Label(mod)), false)
  {
    var at := SubjectOf(mod, index);
    RequiredFieldsDistinct();
    MissingFieldErrorsCite(mod, at, RequiredFields);
    EmptyFieldErrorsCite(mod, at, RequiredFields);
    var m := MissingFieldErrors(mod, at, RequiredFields);
    var t, v, h, u := TypeErrors(mod, at), VersionErrors(mod, at), HomepageErrors(mod, at), DownloadUrlErrors(mod, at);
    var e := EmptyFieldErrors(mod, at, RequiredFields);
    var a, c := ArrayFieldError(mod, at, "dependencies"), ArrayFieldError(mod, at, "conflicts");
    assert CitesAll(m, at, false) && CitesAll(e, at, false);
    ChecksClassified(mod, at);
    CitesConcat(m, t, at, false);
    CitesConcat(m + t, v, at, false);
    CitesConcat(m + t + v, h, at, false);
    CitesConcat(m + t + v + h, u, at, false);
    CitesConcat(m + t + v + h + u, e, at, false);
    CitesConcat(m + t + v + h + u + e, a, at, false);
    CitesConcat(m + t + v + h + u + e + a, c, at, false);
  }

  // ---------------------------------------------------------------------------
  // Order of the missing-field errors

  /** The position of a field in a list of fields. */
  function Position(fields: seq<string>, f: string): (p: nat)
    requires f in fields
    ensures p < |fields| && fields[p] == f
  {
    if fields[0] == f then 0 else 1 + Position(fields[1..], f)
  }

  /** In a list without repetitions, the position of the field at `p` is `p`. */
  lemma {:induction false} PositionOf(fields: seq<string>, p: nat)
    requires NoDuplicates(fields) && p < |fields|
    ensures Position(fields, fields[p]) == p
  {
    if p > 0 {
      assert fields[0] != fields[p];
      assert fields[1..][p - 1] == fields[p];
      PositionOf(fields[1..], p - 1);
    }
  }

  /** The missing-field errors are ordered by the positions of their fields. */
  predicate InFieldOrder(m: seq<Diagnostic>, fields: seq<string>)
  {
    forall i, j :: 0 <= i < j < |m| ==>
      m[i].MissingField? && m[j].MissingField? && m[i].field in fields && m[j].field in fields &&
      Position(fields, m[i].field) < Position(fields, m[j].field)
  }

  /** A field checked before the last one keeps its position when the last one is added. */
  lemma PositionInPrefix(fields: seq<string>, f: string)
    requires NoDuplicates(fields) && fields != [] && f in fields[..|fields| - 1]
    ensures Position(fields, f) == Position(fields[..|fields| - 1], f) < |fields| - 1
  {
    var p := Position(fields[..|fields| - 1], f);
    PositionOf(fields, p);
  }

  /** Appending an error for the last field keeps an ordered list of errors about earlier fields ordered. */
  lemma OrderedAppend(fields: seq<string>, mi: seq<Diagnostic>, last: seq<Diagnostic>, at: Subject)
    requires NoDuplicates(fields) && fields != []
    requires InFieldOrder(mi, fields[..|fields| - 1])
    requires forall d :: d in mi ==> d.MissingField? && d.field in fields[..|fields| - 1]
    requires last == [] || last == [MissingField(at, fields[|fields| - 1])]
    ensures InFieldOrder(mi + last, fields)
  {
    var n := |fields| - 1;
    var m := mi + last;
    forall i, j | 0 <= i < j < |m|
      ensures m[i].MissingField? && m[j].MissingField? && m[i].field in fields && m[j].field in fields
      ensures Position(fields, m[i].field) < Position(fields, m[j].field)
    {
      assert m[i] == mi[i] && mi[i] in mi;
      PositionInPrefix(fields, m[i].field);
      if j < |mi| {
        assert m[j] == mi[j] && mi[j] in mi;
        PositionInPrefix(fields, m[j].field);
      } else {
        PositionOf(fields, n);
      }
    }
  }

  /** The missing-field errors follow the order of the fields they are checked in. */
  lemma {:induction false} MissingFieldErrorsOrdered(mod: Object, at: Subject, fields: seq<string>)
    requires NoDuplicates(fields)
    ensures InFieldOrder(MissingFieldErrors(mod, at, fields), fields)
  {
    if fields != [] {
      var n := |fields| - 1;
      var init := fields[..n];
      assert NoDuplicates(init);
      MissingFieldErrorsOrdered(mod, at, init);
      MissingFieldErrorsCite(mod, at, init);
      OrderedAppend(fields, MissingFieldErrors(mod, at, init),
                    if fields[n] !in mod then [MissingField(at, fields[n])] else [], at);
    }
  }

  predicate NoMissingField(ds: seq<Diagnostic>)
  {
    forall d :: d in ds ==> !d.MissingField?
  }

  /** A list followed by lists without missing-field errors starts with it and has none after it. */
  lemma LeadsWith(m: seq<Diagnostic>, t: seq<Diagnostic>, v: seq<Diagnostic>, h: seq<Diagnostic>,
                  u: seq<Diagnostic>, e: seq<Diagnostic>, a: seq<Diagnostic>, c: seq<Diagnostic>)
    requires NoMissingField(t) && NoMissingField(v) && NoMissingField(h) && NoMissingField(u)
    requires NoMissingField(e) && NoMissingField(a) && NoMissingField(c)
    ensures var all := m + t + v + h + u + e + a + c;
            all[..|m|] == m && forall k :: |m| <= k < |all| ==> !all[k].MissingField?
  {
    var all := m + t + v + h + u + e + a + c;
    var rest := t + v + h + u + e + a + c;
    assert all == m + rest;
    assert NoMissingField(rest);
    forall k | |m| <= k < |all|
      ensures !all[k].MissingField?
    {
      assert all[k] == rest[k - |m|];
      assert rest[k - |m|] in rest;
    }
  }

  /** The entry's errors start with the missing-field errors, in the order of `RequiredFields`, and hold no others. */
  lemma MissingFieldErrorsFirst(mod: Object, index: nat)
    requires WellTypedEntry(mod)
    ensures var at := SubjectOf(mod, index);
            var m := MissingFieldErrors(mod, at, RequiredFields);
            EntryErrors(mod, index)[..|m|] == m && InFieldOrder(m, RequiredFields) &&
            forall k :: |m| <= k < |EntryErrors(mod, index)| ==> !EntryErrors(mod, index)[k].MissingField?
  {
    var at := SubjectOf(mod, index);
    RequiredFieldsDistinct();
    MissingFieldErrorsOrdered(mod, at, RequiredFields);
    EmptyFieldErrorsCite(mod, at, RequiredFields);
    var e := EmptyFieldErrors(mod, at, RequiredFields);
    assert NoMissingField(e);
    LeadsWith(MissingFieldErrors(mod, at, RequiredFields),
              TypeErrors(mod, at), VersionErrors(mod, at), HomepageErrors(mod, at), DownloadUrlErrors(mod, at), e,
              ArrayFieldError(mod, at, "dependencies"), ArrayFieldError(mod, at, "conflicts"));
  }

  // ---------------------------------------------------------------------------
  // Format, emptiness and array checks

  /**
    A diagnostic other than a missing-field or empty-field error is counted in
    the entry's errors as in the single check that can produce it.
   */
  lemma OnlyOneList(mod: Object, index: nat, d: Diagnostic)
    requires WellTypedEntry(mod)
    requires !d.MissingField? && !d.EmptyField?
    ensures var at := SubjectOf(mod, index);
            Occurrences(EntryErrors(mod, index), d) ==
              Occurrences(TypeErrors(mod, at), d) + Occurrences(VersionErrors(mod, at), d) +
              Occurrences(HomepageErrors(mod, at), d) + Occurrences(DownloadUrlErrors(mod, at), d) +
              Occurrences(ArrayFieldError(mod, at, "dependencies"), d) + Occurrences(ArrayFieldError(mod, at, "conflicts"), d)
  {
    var at := SubjectOf(mod, index);
    CountInEntryErrors(mod, index, d);
    OnlyMissingFields(mod, at, RequiredFields, d);
    OnlyEmptyFields(mod, at, RequiredFields, d);
  }

  /** How often each single check produces a given diagnostic. */
  lemma CheckCounts(mod: Object, at: Subject, d: Diagnostic)
    requires WellTypedEntry(mod)
    ensures Occurrences(TypeErrors(mod, at), d) ==
              if "type" in mod && !IsValidType(mod["type"]) && d == InvalidType(at, mod["type"]) then 1 else 0
    ensures Occurrences(VersionErrors(mod, at), d) ==
              if "version" in mod && !ValidVersion(mod["version"].s) && d == InvalidVersion(at, mod["version"]) then 1 else 0
    ensures Occurrences(HomepageErrors(mod, at), d) ==
              if "homepage" in mod && !IsValidUrlValue(mod["homepage"]) && d == InvalidHomepage(at, mod["homepage"]) then 1 else 0
    ensures Occurrences(DownloadUrlErrors(mod, at), d) ==
              if "download_url" in mod && !IsValidUrlValue(mod["download_url"]) && d == InvalidDownloadUrl(at, mod["download_url"]) then 1 else 0
    ensures Occurrences(ArrayFieldError(mod, at, "dependencies"), d) ==
              if "dependencies" in mod && !mod["dependencies"].JArr? && d == NotAnArray(at, "dependencies") then 1 else 0
    ensures Occurrences(ArrayFieldError(mod, at, "conflicts"), d) ==
              if "conflicts" in mod && !mod["conflicts"].JArr? && d == NotAnArray(at, "conflicts") then 1 else 0
  {
    TypeCount(mod, at, d);
    VersionCount(mod, at, d);
    HomepageCount(mod, at, d);
    DownloadUrlCount(mod, at, d);
    ArrayFieldCount(mod, at, "dependencies", d);
    ArrayFieldCount(mod, at, "conflicts", d);
  }

  lemma TypeCount(mod: Object, at: Subject, d: Diagnostic)
    ensures Occurrences(TypeErrors(mod, at), d) ==
              if "type" in mod && !IsValidType(mod["type"]) && d == InvalidType(at, mod["type"]) then 1 else 0
  {
    if "type" in mod { OccurrencesOfOne(InvalidType(at, mod["type"]), d); }
  }

  lemma VersionCount(mod: Object, at: Subject, d: Diagnostic)
    requires WellTypedEntry(mod)
    ensures Occurrences(VersionErrors(mod, at), d) ==
              if "version" in mod && !ValidVersion(mod["version"].s) && d == InvalidVersion(at, mod["version"]) then 1 else 0
  {
    if "version" in mod { OccurrencesOfOne(InvalidVersion(at, mod["version"]), d); }
  }

  lemma HomepageCount(mod: Object, at: Subject, d: Diagnostic)
    ensures Occurrences(HomepageErrors(mod, at), d) ==
              if "homepage" in mod && !IsValidUrlValue(mod["homepage"]) && d == InvalidHomepage(at, mod["homepage"]) then 1 else 0
  {
    if "homepage" in mod { OccurrencesOfOne(InvalidHomepage(at, mod["homepage"]), d); }
  }

  lemma DownloadUrlCount(mod: Object, at: Subject, d: Diagnostic)
    ensures Occurrences(DownloadUrlErrors(mod, at), d) ==
              if "download_url" in mod && !IsValidUrlValue(mod["download_url"]) && d == InvalidDownloadUrl(at, mod["download_url"]) then 1 else 0
  {
    if "download_url" in mod { OccurrencesOfOne(InvalidDownloadUrl(at, mod["download_url"]), d); }
  }

  lemma ArrayFieldCount(mod: Object, at: Subject, field: string, d: Diagnostic)
    ensures Occurrences(ArrayFieldError(mod, at, field), d) ==
              if field in mod && !mod[field].JArr? && d == NotAnArray(at, field) then 1 else 0
  {
    OccurrencesOfOne(NotAnArray(at, field), d);
  }

  /** `type` is reported, once and with its value, exactly when present and not one of the five types (exact, case-sensitive). */
  lemma TypeCheckReported(mod: Object, index: nat, v: Json)
    requires WellTypedEntry(mod)
    ensures Occurrences(EntryErrors(mod, index), InvalidType(SubjectOf(mod, index), v)) ==
              if "type" in mod && mod["type"] == v && !IsValidType(v) then 1 else 0
  {
    var d := InvalidType(SubjectOf(mod, index), v);
    OnlyOneList(mod, index, d);
    CheckCounts(mod, SubjectOf(mod, index), d);
  }

  /** `version` is reported, once and with its value, exactly when present and off the pattern. */
  lemma VersionCheckReported(mod: Object, index: nat, v: Json)
    requires WellTypedEntry(mod)
    ensures Occurrences(EntryErrors(mod, index), InvalidVersion(SubjectOf(mod, index), v)) ==
              if "version" in mod && mod["version"] == v && !ValidVersion(v.s) then 1 else 0
  {
    var d := InvalidVersion(SubjectOf(mod, index), v);
    OnlyOneList(mod, index, d);
    CheckCounts(mod, SubjectOf(mod, index), d);
  }

  /** `homepage` is reported, once and with its value, exactly when present and not a URL. */
  lemma HomepageCheckReported(mod: Object, index: nat, v: Json)
    requires WellTypedEntry(mod)
    ensures Occurrences(EntryErrors(mod, index), InvalidHomepage(SubjectOf(mod, index), v)) ==
              if "homepage" in mod && mod["homepage"] == v && !IsValidUrlValue(v) then 1 else 0
  {
    var d := InvalidHomepage(SubjectOf(mod, index), v);
    OnlyOneList(mod, index, d);
    CheckCounts(mod, SubjectOf(mod, index), d);
  }

  /** `download_url` is reported, once and with its value, exactly when present and not a URL. */
  lemma DownloadUrlCheckReported(mod: Object, index: nat, v: Json)
    requires WellTypedEntry(mod)
    ensures Occurrences(EntryErrors(mod, index), InvalidDownloadUrl(SubjectOf(mod, index), v)) ==
              if "download_url" in mod && mod["download_url"] == v && !IsValidUrlValue(v) then 1 else 0
  {
    var d := InvalidDownloadUrl(SubjectOf(mod, index), v);
    OnlyOneList(mod, index, d);
    CheckCounts(mod, SubjectOf(mod, index), d);
  }

  /** A field gets one "cannot be empty" error exactly when it is required and present as a blank string. */
  lemma EmptyFieldReported(mod: Object, index: nat, f: string)
    requires WellTypedEntry(mod)
    ensures Occurrences(EntryErrors(mod, index), EmptyField(SubjectOf(mod, index), f)) ==
              if f in RequiredFields && f in mod && IsBlankString(mod[f]) then 1 else 0
  {
    var at := SubjectOf(mod, index);
    RequiredFieldsDistinct();
    OnlyMissingFields(mod, at, RequiredFields, EmptyField(at, f));
    EmptyFieldErrorsCount(mod, at, RequiredFields, f);
    CountInEntryErrors(mod, index, EmptyField(at, f));
    CheckCounts(mod, at, EmptyField(at, f));
  }

  /** `dependencies` and `conflicts`, when present, must be arrays; each other value gets one error. */
  lemma ArrayFieldReported(mod: Object, index: nat, f: string)
    requires WellTypedEntry(mod)
    ensures Occurrences(EntryErrors(mod, index), NotAnArray(SubjectOf(mod, index), f)) ==
              if IsArrayField(f) && f in mod && !mod[f].JArr? then 1 else 0
  {
    var d := NotAnArray(SubjectOf(mod, index), f);
    OnlyOneList(mod, index, d);
    CheckCounts(mod, SubjectOf(mod, index), d);
  }

  /** None of the five types is blank. */
  lemma ValidTypesNotBlank(v: Json)
    requires IsBlankString(v)
    ensures !IsValidType(v)
  {
    assert forall t :: t in ValidTypes ==> t != [] && !IsPyWhitespace(t[0]);
  }

  /** The fields whose format the entry check validates. */
  predicate IsFormatChecked(field: string)
  {
    field == "version" || field == "type" || field == "homepage" || field == "download_url"
  }

  /** The error the format check of `field` reports for the value `v`. */
  function FormatError(field: string, at: Subject, v: Json): Diagnostic
    requires IsFormatChecked(field)
  {
    if field == "version" then InvalidVersion(at, v)
    else if field == "type" then InvalidType(at, v)
    else if field == "homepage" then InvalidHomepage(at, v)
    else InvalidDownloadUrl(at, v)
  }

  /**
    A blank `version`, `type`, `homepage` or `download_url` is reported twice:
    once by its format check and once as empty.
   */
  lemma BlankFieldReportedTwice(mod: Object, index: nat, f: string)
    requires WellTypedEntry(mod)
    requires IsFormatChecked(f) && f in mod && IsBlankString(mod[f])
    ensures var at := SubjectOf(mod, index);
            Occurrences(EntryErrors(mod, index), EmptyField(at, f)) == 1 &&
            Occurrences(EntryErrors(mod, index), FormatError(f, at, mod[f])) == 1
  {
    var v := mod[f];
    var at := SubjectOf(mod, index);
    BlankFailsFormat(v);
    EmptyFieldReported(mod, index, f);
    if f == "version" {
      VersionCheckReported(mod, index, v);
      assert Occurrences(EntryErrors(mod, index), FormatError(f, at, v)) == 1;
    } else if f == "type" {
      TypeCheckReported(mod, index, v);
      assert Occurrences(EntryErrors(mod, index), FormatError(f, at, v)) == 1;
    } else if f == "homepage" {
      HomepageCheckReported(mod, index, v);
      assert Occurrences(EntryErrors(mod, index), FormatError(f, at, v)) == 1;
    } else {
      DownloadUrlCheckReported(mod, index, v);
      assert Occurrences(EntryErrors(mod, index), FormatError(f, at, v)) == 1;
    }
  }

  /** A blank string fails every format check. */
  lemma BlankFailsFormat(v: Json)
    requires IsBlankString(v)
    ensures !ValidVersion(v.s) && !IsValidType(v) && !IsValidUrlValue(v)
  {
    BlankIsNoVersion(v.s);
    ValidTypesNotBlank(v);
    BlankIsNoUrl(v.s);
  }

  // ---------------------------------------------------------------------------
  // Advisory checks

  /**
    A `changelog_url` is flagged exactly when it is present, truthy and not a
    URL (so an empty one is never flagged); a description exactly when it is
    longer than the maximum, with its actual length.
   */
  lemma AdvisoryWarningsReported(mod: Object, index: nat, v: Json, n: nat)
    requires WellTypedEntry(mod)
    ensures var at := SubjectOf(mod, index);
            && (InvalidChangelogUrl(at, v) in EntryWarnings(mod, index) <==>
                  "changelog_url" in mod && mod["changelog_url"] == v && Truthy(v) && !IsValidUrlValue(v))
            && (DescriptionTooLong(at, n) in EntryWarnings(mod, index) <==>
                  "description" in mod && Size(mod["description"]) == n && n > MaxDescriptionLength)
  {
  }

  // ---------------------------------------------------------------------------
  // What the errors do not depend on

  /** Two entries that agree on whether each field of `fields` is present, and on its value. */
  predicate AgreeOn(m1: Object, m2: Object, fields: seq<string>)
  {
    forall f :: f in fields ==> (f in m1 <==> f in m2) && (f in m1 ==> m1[f] == m2[f])
  }

  lemma {:induction false} FieldListsAgree(m1: Object, m2: Object, at: Subject, fields: seq<string>)
    requires AgreeOn(m1, m2, fields)
    ensures MissingFieldErrors(m1, at, fields) == MissingFieldErrors(m2, at, fields)
    ensures EmptyFieldErrors(m1, at, fields) == EmptyFieldErrors(m2, at, fields)
  {
    if fields != [] {
      FieldListsAgree(m1, m2, at, fields[..|fields| - 1]);
    }
  }

  /**
    The errors of an entry do not depend on its `changelog_url`: whatever it
    holds, or whether it is there at all, only the warnings change.
   */
  lemma ErrorsIgnoreChangelogUrl(mod: Object, index: nat, v: Json)
    requires WellTypedEntry(mod)
    ensures WellTypedEntry(mod["changelog_url" := v]) && WellTypedEntry(mod - {"changelog_url"})
    ensures EntryErrors(mod["changelog_url" := v], index) == EntryErrors(mod - {"changelog_url"}, index)
  {
    var m1, m2 := mod["changelog_url" := v], mod - {"changelog_url"};
    var at := SubjectOf(m1, index);
    assert at == SubjectOf(m2, index);
    assert AgreeOn(m1, m2, RequiredFields);
    FieldListsAgree(m1, m2, at, RequiredFields);
    assert TypeErrors(m1, at) == TypeErrors(m2, at);
    assert VersionErrors(m1, at) == VersionErrors(m2, at);
    assert HomepageErrors(m1, at) == HomepageErrors(m2, at);
    assert DownloadUrlErrors(m1, at) == DownloadUrlErrors(m2, at);
    assert ArrayFieldError(m1, at, "dependencies") == ArrayFieldError(m2, at, "dependencies");
    assert ArrayFieldError(m1, at, "conflicts") == ArrayFieldError(m2, at, "conflicts");
  }
}
