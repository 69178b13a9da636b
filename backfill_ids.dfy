/**
 * Identifiers the December 2025 backfill derives from spreadsheet text:
 * customer and appointment ids built from slugs, and the provider id found
 * by matching the provider's name against the directory.
 */
module BackfillIds {
  import opened Wrappers
  import opened Text
  import Sheet
  import Employees
  import BackfillKeys

  // ---- Slugs -----------------------------------------------------------------

  predicate IsSlugChar(c: char) { IsLowerAlpha(c) || IsDigit(c) }

  /** The text after a leading run of characters that are not slug characters. */
  function SkipRun(s: string): (r: string)
    ensures |r| <= |s| && r == s[|s| - |r|..]
    ensures r == [] || IsSlugChar(r[0])
    decreases |s|
  {
    if s != [] && !IsSlugChar(s[0]) then SkipRun(s[1..]) else s
  }

  /** `s.replace(/[^a-z0-9]+/g, "-")`: every maximal run of other characters becomes one dash. */
  function DashRuns(s: string): (r: string)
    ensures forall i :: 0 <= i < |r| ==> IsSlugChar(r[i]) || r[i] == '-'
    ensures forall i :: 0 <= i < |r| - 1 && r[i] == '-' ==> r[i + 1] != '-'
    ensures (r == []) == (s == [])
    ensures s != [] ==> (r[0] == '-' <==> !IsSlugChar(s[0]))
    decreases |s|
  {
    if s == [] then []
    else if IsSlugChar(s[0]) then [s[0]] + DashRuns(s[1..])
    else
      var rest := SkipRun(s[1..]);
      "-" + DashRuns(rest)
  }

  /** `s.replace(/^-|-$/g, "")`: one dash removed at each end. */
  function StripDashes(s: string): (r: string)
    ensures |r| <= |s|
  {
    var a := if s != [] && s[0] == '-' then s[1..] else s;
    if a != [] && a[|a| - 1] == '-' then a[..|a| - 1] else a
  }

  /** A slug: lower-case letters and digits in groups separated by single dashes. */
  predicate IsSlug(s: string) {
    (forall i :: 0 <= i < |s| ==> IsSlugChar(s[i]) || s[i] == '-')
    && (forall i :: 0 <= i < |s| - 1 && s[i] == '-' ==> s[i + 1] != '-')
    && (s != [] ==> s[0] != '-' && s[|s| - 1] != '-')
  }

  /** The slug `toCustomerId` makes of a name. */
  function Slug(name: string): string {
    StripDashes(DashRuns(Lower(Trim(name))))
  }

  /** Every slug is lower-case letters and digits in groups separated by single dashes. */
  lemma SlugShape(name: string)
    ensures IsSlug(Slug(name))
  {
    hide Lower, Trim, DashRuns;
    StripDashesSlug(DashRuns(Lower(Trim(name))));
  }

  /** Removing the end dashes of dashed text leaves a slug. */
  lemma StripDashesSlug(d: string)
    requires forall i :: 0 <= i < |d| ==> IsSlugChar(d[i]) || d[i] == '-'
    requires forall i :: 0 <= i < |d| - 1 && d[i] == '-' ==> d[i + 1] != '-'
    ensures IsSlug(StripDashes(d))
  {
    var r := StripDashes(d);
    var off := if d != [] && d[0] == '-' then 1 else 0;
    assert forall i :: 0 <= i < |r| ==> r[i] == d[i + off];
  }

  /** Text that already is a slug passes through the replacement unchanged. */
  lemma {:induction false} DashRunsOfSlugText(s: string)
    requires forall i :: 0 <= i < |s| ==> IsSlugChar(s[i]) || s[i] == '-'
    requires forall i :: 0 <= i < |s| - 1 && s[i] == '-' ==> s[i + 1] != '-'
    ensures DashRuns(s) == s
    decreases |s|
  {
    if s != [] {
      var t := s[1..];
      assert forall i :: 0 <= i < |t| ==> t[i] == s[i + 1];
      if !IsSlugChar(s[0]) {
        assert t == [] || IsSlugChar(t[0]);
        assert SkipRun(t) == t;
      }
      DashRunsOfSlugText(t);
    }
  }

  /** A slug is its own slug. */
  lemma SlugOfSlug(s: string)
    requires IsSlug(s)
    ensures Slug(s) == s
  {
    hide Trim, Lower, DashRuns;
    SlugTextPlain(s);
    DashRunsOfSlugText(s);
    assert StripDashes(s) == s;
  }

  /** Slug text has no blanks around it and no upper-case letter. */
  lemma SlugTextPlain(s: string)
    requires IsSlug(s)
    ensures Trim(s) == s && Lower(s) == s
  {
    hide DashRuns;
    if s != [] {
      assert !IsSpace(s[0]) && !IsSpace(s[|s| - 1]);
      TrimUnchanged(s);
    }
    assert Lower(s) == s;
  }

  /** Slugging is idempotent. */
  lemma SlugIdempotent(name: string)
    ensures Slug(Slug(name)) == Slug(name)
  {
    SlugShape(name);
    SlugOfSlug(Slug(name));
  }

  function CustomerPrefix(suffix: string): string {
    "dec2025-" + suffix + "-customer-"
  }

  /** `toCustomerId`: the slug of the name, or the row number when the slug is empty. */
  function CustomerId(name: string, rowNumber: nat, suffix: string): (r: string)
    ensures Slug(name) != "" ==> r == CustomerPrefix(suffix) + Slug(name)
    ensures Slug(name) == "" ==> r == CustomerPrefix(suffix) + NatToString(rowNumber)
  {
    var slug := Slug(name);
    CustomerPrefix(suffix) + (if slug != "" then slug else NatToString(rowNumber))
  }

  /**
   * Customer ids tell customers apart: names with the same non-empty slug
   * share an id whatever their rows, names with different non-empty slugs
   * never do, and nameless customers on different rows get different ids.
   */
  lemma CustomerIdIdentifies(a: string, b: string, rowA: nat, rowB: nat, suffix: string)
    ensures Slug(a) != "" && Slug(a) == Slug(b) ==> CustomerId(a, rowA, suffix) == CustomerId(b, rowB, suffix)
    ensures Slug(a) != "" && Slug(b) != "" && Slug(a) != Slug(b) ==> CustomerId(a, rowA, suffix) != CustomerId(b, rowB, suffix)
    ensures Slug(a) == "" && Slug(b) == "" && rowA != rowB ==> CustomerId(a, rowA, suffix) != CustomerId(b, rowB, suffix)
  {
    var p := CustomerPrefix(suffix);
    if Slug(a) != "" && Slug(b) != "" && Slug(a) != Slug(b) {
      assert (p + Slug(a))[|p|..] == Slug(a) && (p + Slug(b))[|p|..] == Slug(b);
    }
    if Slug(a) == "" && Slug(b) == "" && rowA != rowB {
      NatToStringValue(rowA);
      NatToStringValue(rowB);
      var x, y := NatToString(rowA), NatToString(rowB);
      assert (p + x)[|p|..] == x && (p + y)[|p|..] == y;
    }
  }

  function AppointmentPrefix(suffix: string): string {
    "dec2025-" + suffix + "-appt-"
  }

  /** `toAppointmentId`: the cell's text with runs of other characters dashed, or the row number for a blank cell. */
  function AppointmentId(c: Sheet.Cell, rowNumber: nat, suffix: string): string {
    AppointmentIdOfText(Sheet.CellToString(c), rowNumber, suffix)
  }

  /** `toAppointmentId` once the cell is read as text. */
  function AppointmentIdOfText(raw: string, rowNumber: nat, suffix: string): (r: string)
    ensures Trim(raw) == "" ==> r == AppointmentPrefix(suffix) + NatToString(rowNumber)
    ensures Trim(raw) != "" ==> r == AppointmentPrefix(suffix) + DashRuns(Lower(Trim(raw)))
  {
    if raw == "" then AppointmentPrefix(suffix) + NatToString(rowNumber)
    else
      var slug := DashRuns(Lower(Trim(raw)));
      if slug != "" then AppointmentPrefix(suffix) + slug
      else
        assert Trim(raw) == [];
        AppointmentPrefix(suffix) + NatToString(rowNumber)
  }

  // ---- Provider resolution ---------------------------------------------------

  predicate IsNotSpace(c: char) { !IsSpace(c) }

  /** `normalize(value).replace(/\s/g, "")`: the letters of the normalised name. */
  function Squeeze(value: string): (r: string)
    ensures forall i :: 0 <= i < |r| ==> IsLowerAlpha(r[i])
  {
    Keep(BackfillKeys.NormalizePersonName(value), IsNotSpace)
  }

  /** `fingerprint`: the letters of the name, with the Betancourt spelling read as Betandcourt. */
  function Fingerprint(value: string): (r: string)
    ensures Squeeze(value) != "marybetancourt" ==> r == Squeeze(value)
    ensures r == "" <==> Squeeze(value) == ""
  {
    var n := Squeeze(value);
    if n == "marybetancourt" then "marybetandcourt" else n
  }

  /** The loose test: one normalised name contains the other, and the directory's is not empty. */
  predicate LooseMatch(desiredLoose: string, name: string) {
    var candidate := BackfillKeys.NormalizePersonName(name);
    candidate != "" && (Contains(desiredLoose, candidate) || Contains(candidate, desiredLoose))
  }

  /** `entries.find`: the first position from `from` on whose name satisfies `p`. */
  function FindFrom(dir: Employees.Directory, p: string -> bool, from: nat): (r: Option<nat>)
    ensures r.Some? ==> from <= r.value < |dir| && p(dir[r.value].1)
                        && forall j :: from <= j < r.value ==> !p(dir[j].1)
    ensures r.None? ==> forall j :: from <= j < |dir| ==> !p(dir[j].1)
    decreases |dir| - from
  {
    if from >= |dir| then None
    else if p(dir[from].1) then Some(from)
    else FindFrom(dir, p, from + 1)
  }

  /** `resolveProviderIdByName` as written: an exact fingerprint match first, then a loose one. */
  function ResolveProviderIdAsWritten(dir: Employees.Directory, providerName: string): (r: Option<string>)
    ensures r.Some? ==> exists i :: 0 <= i < |dir| && dir[i].0 == r.value
  {
    var desired := Fingerprint(providerName);
    match FindFrom(dir, name => Fingerprint(name) == desired, 0)
    case Some(i) => Some(dir[i].0)
    case None =>
      var desiredLoose := BackfillKeys.NormalizePersonName(providerName);
      match FindFrom(dir, name => LooseMatch(desiredLoose, name), 0)
      case Some(i) => Some(dir[i].0)
      case None => None
  }

  /**
   * The corrected resolver (see ## Findings in README.md): a name without a
   * single letter names nobody; any other name is resolved as written.
   */
  function ResolveProviderId(dir: Employees.Directory, providerName: string): (r: Option<string>)
    ensures Squeeze(providerName) == "" ==> r.None?
    ensures r.Some? ==> exists i :: 0 <= i < |dir| && dir[i].0 == r.value
                          && (Fingerprint(dir[i].1) == Fingerprint(providerName)
                              || LooseMatch(BackfillKeys.NormalizePersonName(providerName), dir[i].1))
  {
    if Squeeze(providerName) == "" then None
    else
      var desired := Fingerprint(providerName);
      match FindFrom(dir, name => Fingerprint(name) == desired, 0)
      case Some(i) => Some(dir[i].0)
      case None =>
        var desiredLoose := BackfillKeys.NormalizePersonName(providerName);
        match FindFrom(dir, name => LooseMatch(desiredLoose, name), 0)
        case Some(i) => Some(dir[i].0)
        case None => None
  }

  /** For a name with a letter, the corrected resolver answers as the source does. */
  lemma ResolveAgreesWithSource(dir: Employees.Directory, providerName: string)
    requires Squeeze(providerName) != ""
    ensures ResolveProviderId(dir, providerName) == ResolveProviderIdAsWritten(dir, providerName)
  {
  }

  /** An exact fingerprint match wins: the id of the first entry whose fingerprint equals the name's. */
  lemma ResolveExactFirst(dir: Employees.Directory, providerName: string, i: nat)
    requires Squeeze(providerName) != ""
    requires i < |dir| && Fingerprint(dir[i].1) == Fingerprint(providerName)
    requires forall j :: 0 <= j < i ==> Fingerprint(dir[j].1) != Fingerprint(providerName)
    ensures ResolveProviderId(dir, providerName) == Some(dir[i].0)
  {
    var desired := Fingerprint(providerName);
    var f := FindFrom(dir, name => Fingerprint(name) == desired, 0);
    assert f.Some? && f.value == i;
  }

  /** No id is found exactly when no entry matches, neither exactly nor loosely. */
  lemma ResolveNoneIff(dir: Employees.Directory, providerName: string)
    requires Squeeze(providerName) != ""
    ensures ResolveProviderId(dir, providerName).None?
            <==> forall j :: 0 <= j < |dir| ==>
                   Fingerprint(dir[j].1) != Fingerprint(providerName)
                   && !LooseMatch(BackfillKeys.NormalizePersonName(providerName), dir[j].1)
  {
    var desired := Fingerprint(providerName);
    var desiredLoose := BackfillKeys.NormalizePersonName(providerName);
    var f := FindFrom(dir, name => Fingerprint(name) == desired, 0);
    var g := FindFrom(dir, name => LooseMatch(desiredLoose, name), 0);
    if f.Some? {
      assert Fingerprint(dir[f.value].1) == desired;
    } else if g.Some? {
      assert LooseMatch(desiredLoose, dir[g.value].1);
    }
  }

  /**
   * A name listed in the directory resolves to its own id when no earlier
   * entry shares its fingerprint.
   */
  lemma ResolveListedName(dir: Employees.Directory, i: nat)
    requires i < |dir| && Squeeze(dir[i].1) != ""
    requires forall j :: 0 <= j < i ==> Fingerprint(dir[j].1) != Fingerprint(dir[i].1)
    ensures ResolveProviderId(dir, dir[i].1) == Some(dir[i].0)
  {
    ResolveExactFirst(dir, dir[i].1, i);
  }

  /** A name that starts with a letter has a non-empty fingerprint. */
  lemma LetterFirst(s: string)
    requires s != [] && (IsUpperAlpha(s[0]) || IsLowerAlpha(s[0]))
    ensures Squeeze(s) != []
  {
    SquashHead(s);
    var c := BackfillKeys.Squash(s);
    KeepKeepsHead(c, BackfillKeys.IsPersonKeep);
    BackfillKeys.PersonNameIs(s);
    KeepKeepsHead(BackfillKeys.NormalizePersonName(s), IsNotSpace);
  }

  lemma SquashHead(s: string)
    requires s != [] && (IsUpperAlpha(s[0]) || IsLowerAlpha(s[0]))
    ensures BackfillKeys.Squash(s) != [] && IsLowerAlpha(BackfillKeys.Squash(s)[0])
  {
    TrimKeepsHead(s);
    var l := Lower(Trim(s));
    assert IsLowerAlpha(l[0]);
    CollapseKeepsHead(l);
  }

  lemma TrimKeepsHead(s: string)
    requires s != [] && !IsSpace(s[0])
    ensures Trim(s) != [] && Trim(s)[0] == s[0]
  {
    assert TrimStart(s) == s;
  }

  lemma CollapseKeepsHead(s: string)
    requires s != [] && !IsSpace(s[0])
    ensures CollapseSpaces(s) != [] && CollapseSpaces(s)[0] == s[0]
  {
  }

  lemma KeepKeepsHead(s: string, keep: char -> bool)
    requires s != [] && keep(s[0])
    ensures Keep(s, keep) != [] && Keep(s, keep)[0] == s[0]
  {
  }

  /** Every directory name starts with a capital letter. */
  lemma DirectoryNamesStartCapital()
    ensures forall i :: 0 <= i < |Employees.ProviderDirectory| ==>
              Employees.ProviderDirectory[i].1 != [] && IsUpperAlpha(Employees.ProviderDirectory[i].1[0])
  {
  }

  /**
   * As written, a blank provider cell resolves to the first entry of the
   * directory: its fingerprint matches no name, and every non-empty name
   * contains the empty string.
   */
  lemma BlankProviderAsWritten()
    ensures ResolveProviderIdAsWritten(Employees.ProviderDirectory, "") == Some(Employees.ProviderDirectory[0].0)
  {
    var dir := Employees.ProviderDirectory;
    DirectoryNamesStartCapital();
    forall j | 0 <= j < |dir| ensures Fingerprint(dir[j].1) != "" {
      LetterFirst(dir[j].1);
    }
    assert Squeeze("") == "" by {
      assert Trim("") == "" && Lower("") == "" && CollapseSpaces("") == "";
    }
    var f := FindFrom(dir, name => Fingerprint(name) == "", 0);
    assert f.None?;
    LetterFirst(dir[0].1);
    ContainsEmpty(BackfillKeys.NormalizePersonName(dir[0].1));
    assert LooseMatch("", dir[0].1);
  }

  /** The common misspelling finds the directory's spelling. */
  lemma BetancourtAlias(providerName: string)
    requires Squeeze(providerName) == "marybetancourt"
    ensures Fingerprint(providerName) == "marybetandcourt"
  {
  }
}
