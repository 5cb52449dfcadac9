/**
  The validator's diagnostics. Each message the script appends to its error or
  warning list is one constructor here, carrying the values the message
  interpolates; `Message` renders it as the script's text.
 */
module Diagnostics {
  import opened JsonValues

  /** The `Mod #<index> (<name>)` a per-entry message starts with. */
  datatype Subject = Subject(index: nat, name: Json)

  datatype Diagnostic =
    // per-entry checks
    | MissingField(at: Subject, field: string)
    | InvalidType(at: Subject, value: Json)
    | InvalidVersion(at: Subject, value: Json)
    | InvalidHomepage(at: Subject, value: Json)
    | InvalidDownloadUrl(at: Subject, value: Json)
    | InvalidChangelogUrl(at: Subject, value: Json)
    | DescriptionTooLong(at: Subject, length: nat)
    | EmptyField(at: Subject, field: string)
    | NotAnArray(at: Subject, field: string)
    // duplicate names, with the first-seen and the current 0-based index
    | DuplicateName(name: Json, first: nat, current: nat)
    // store structure
    | MissingStoreVersion
    | MissingMods
    | ModsNotArray
    | ModCountMismatch(declared: Json, actual: nat)
  {
    /** The kinds the script files under warnings; every other kind is an error. */
    predicate IsWarningKind()
    {
      InvalidChangelogUrl? || DescriptionTooLong? || MissingStoreVersion? || ModCountMismatch?
    }

    /** The kinds that belong to one mod entry and start with its subject. */
    predicate IsEntryKind()
    {
      MissingField? || InvalidType? || InvalidVersion? || InvalidHomepage? || InvalidDownloadUrl? ||
      InvalidChangelogUrl? || DescriptionTooLong? || EmptyField? || NotAnArray?
    }
  }

  function DigitChar(d: nat): char
    requires d < 10
  {
    "0123456789"[d]
  }

  /** Python's `str(n)` for a non-negative integer: its decimal digits, with no leading zero. */
  function NatToString(n: nat): (r: string)
    ensures r != []
    ensures forall k :: 0 <= k < |r| ==> '0' <= r[k] <= '9'
    ensures r[0] == '0' <==> n == 0
    ensures |r| == 1 || r[0] != '0'
  {
    if n < 10 then [DigitChar(n)] else NatToString(n / 10) + [DigitChar(n % 10)]
  }

  /** The number a string of decimal digits denotes. */
  function DecimalValue(s: string): nat
    requires forall k :: 0 <= k < |s| ==> '0' <= s[k] <= '9'
  {
    if s == [] then 0 else 10 * DecimalValue(s[..|s| - 1]) + (s[|s| - 1] - '0') as nat
  }

  /** Reading back the digits NatToString writes gives the number: the rendering loses nothing. */
  lemma {:induction false} NatToStringRoundTrip(n: nat)
    ensures DecimalValue(NatToString(n)) == n
  {
    if n >= 10 {
      var r := NatToString(n);
      assert r[..|r| - 1] == NatToString(n / 10);
      NatToStringRoundTrip(n / 10);
    }
  }

  /** Python's `str(n)` for any integer. */
  function IntToString(n: int): string
  {
    if n < 0 then "-" + NatToString(-n) else NatToString(n)
  }

  /**
    Python's `str` of a JSON value as an f-string interpolates it. Strings,
    numbers, booleans and `None` are rendered exactly; lists and dictionaries
    are abbreviated.
   */
  function Show(j: Json): string
  {
    match j
    case JNull => "None"
    case JBool(b) => if b then "True" else "False"
    case JNum(n) => IntToString(n)
    case JStr(s) => s
    case JArr(_) => "[...]"
    case JObj(_) => "{...}"
  }

  function SubjectPrefix(at: Subject): string
  {
    "Mod #" + NatToString(at.index) + " (" + Show(at.name) + "): "
  }

  /** Two subjects with the same name print the same prefix only when their entry numbers agree. */
  lemma SubjectPrefixNamesIndex(a: Subject, b: Subject)
    requires a.name == b.name && SubjectPrefix(a) == SubjectPrefix(b)
    ensures a.index == b.index
  {
    var na, nb := NatToString(a.index), NatToString(b.index);
    var p := SubjectPrefix(a);
    assert |p| == 5 + |na| + 2 + |Show(a.name)| + 3;
    assert |na| == |nb|;
    assert na == p[5..5 + |na|];
    assert nb == SubjectPrefix(b)[5..5 + |nb|];
    NatToStringRoundTrip(a.index);
    NatToStringRoundTrip(b.index);
  }

  const MaxDescriptionLength: nat := 200

  /** What a per-entry message says after its subject. */
  function EntryText(d: Diagnostic): string
    requires d.IsEntryKind()
  {
    match d
    case MissingField(_, field) =>
      "Missing required field '" + field + "'"
    case InvalidType(_, value) =>
      "Invalid type '" + Show(value) + "'. Must be one of: ui, graphics, tactics, database, misc"
    case InvalidVersion(_, value) =>
      "Invalid version format '" + Show(value) + "'. Must be semantic versioning (X.Y.Z)"
    case InvalidHomepage(_, value) =>
      "Invalid homepage URL '" + Show(value) + "'"
    case InvalidDownloadUrl(_, value) =>
      "Invalid download_url '" + Show(value) + "'"
    case InvalidChangelogUrl(_, value) =>
      "Invalid changelog_url '" + Show(value) + "'"
    case DescriptionTooLong(_, length) =>
      "Description too long (" + NatToString(length) + " chars, max " + NatToString(MaxDescriptionLength) + ")"
    case EmptyField(_, field) =>
      "Field '" + field + "' cannot be empty"
    case NotAnArray(_, field) =>
      "'" + field + "' must be an array"
  }

  /**
    The text the script prints for a diagnostic: every per-entry message opens
    with its entry's `Mod #<index> (<name>): `, and every message is non-empty.
   */
  function Message(d: Diagnostic): (r: string)
    ensures d.IsEntryKind() ==> SubjectPrefix(d.at) <= r
    ensures d.DuplicateName? ==> "Duplicate mod name '" <= r
    ensures r != []
  {
    if d.IsEntryKind() then SubjectPrefix(d.at) + EntryText(d)
    else match d
      case DuplicateName(name, first, current) =>
        "Duplicate mod name '" + (Show(name) + "' found at indices " + NatToString(first) + " and " + NatToString(current))
      case MissingStoreVersion =>
        "Missing 'version' field in store metadata"
      case MissingMods =>
        "Missing 'mods' array in store"
      case ModsNotArray =>
        "'mods' must be an array"
      case ModCountMismatch(declared, actual) =>
        "mod_count (" + Show(declared) + ") doesn't match actual count (" + NatToString(actual) + ")"
  }

  // ---------------------------------------------------------------------------
  // Counting diagnostics

  /** How many times `d` occurs in `ds`. */
  function Occurrences(ds: seq<Diagnostic>, d: Diagnostic): nat
  {
    if ds == [] then 0
    else Occurrences(ds[..|ds| - 1], d) + (if ds[|ds| - 1] == d then 1 else 0)
  }

  /** A one-element list holds `d` once when its element is `d`, and not otherwise. */
  lemma OccurrencesOfOne(x: Diagnostic, d: Diagnostic)
    ensures Occurrences([x], d) == if x == d then 1 else 0
  {
    assert [x][..0] == [];
  }

  /** The occurrences in a concatenation are those of its two parts. */
  lemma {:induction false} OccurrencesAppend(a: seq<Diagnostic>, b: seq<Diagnostic>, d: Diagnostic)
    ensures Occurrences(a + b, d) == Occurrences(a, d) + Occurrences(b, d)
  {
    if b != [] {
      var n := |b| - 1;
      OccurrencesAppend(a, b[..n], d);
      assert (a + b)[..|a + b| - 1] == a + b[..n];
    } else {
      assert a + b == a;
    }
  }

  /** A diagnostic occurs at least once exactly when it is in the list. */
  lemma {:induction false} OccurrencesPositive(ds: seq<Diagnostic>, d: Diagnostic)
    ensures Occurrences(ds, d) > 0 <==> d in ds
  {
    if ds != [] {
      var n := |ds| - 1;
      OccurrencesPositive(ds[..n], d);
      assert ds == ds[..n] + [ds[n]];
    }
  }
}
