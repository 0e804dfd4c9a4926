/** File names, identities and lookups of scripts/migration-catalog.ts. */
module MigrationCatalog {
  import opened Decimal
  import opened Results
  import opened Sequences

  datatype AppliedMigration = AppliedMigration(name: string, version: string, checksum: Option<string>)

  const SQL: string := ".sql"

  predicate IsLineTerminator(c: char) {
    c == '\n' || c == '\r' || c == '\U{2028}' || c == '\U{2029}'
  }

  predicate EndsWithSql(s: string) {
    |s| >= |SQL| && s[|s| - |SQL|..] == SQL
  }

  lemma SuffixIs(s: string)
    ensures EndsWithSql(s) <==> exists stem :: s == stem + SQL
  {
    if EndsWithSql(s) {
      assert s == s[..|s| - |SQL|] + SQL;
    }
    if stem :| s == stem + SQL {
      assert s[|stem|..] == SQL;
    }
  }

  function MigrationId(filename: string): string {
    if EndsWithSql(filename) then filename[..|filename| - |SQL|] else filename
  }

  /** The digits of a name made of digits, an underscore, a rest without line terminators
      and the suffix; None for any other name. */
  function MigrationVersion(filename: string): Option<string> {
    var n := DigitCount(filename);
    if && 0 < n < |filename| && filename[n] == '_'
       && EndsWithSql(filename[n + 1..])
       && forall i :: n < i < |filename| - |SQL| ==> !IsLineTerminator(filename[i])
    then Some(filename[..n])
    else None
  }

  predicate IsValidName(filename: string) {
    MigrationVersion(filename).Some?
  }

  /** The expression of the source: digits, an underscore, anything on one line, and the suffix. */
  ghost predicate IsName(filename: string, version: string, rest: string) {
    && filename == version + "_" + rest + SQL
    && version != "" && AllDigits(version)
    && forall i :: 0 <= i < |rest| ==> !IsLineTerminator(rest[i])
  }

  lemma VersionHasName(filename: string)
    requires IsValidName(filename)
    ensures exists rest :: IsName(filename, MigrationVersion(filename).value, rest)
  {
    var n := DigitCount(filename);
    var rest, after := filename[n + 1..|filename| - |SQL|], filename[n + 1..];
    assert after[|after| - |SQL|..] == SQL;
    assert after == rest + SQL;
    assert filename == filename[..n] + "_" + after;
    Associative(filename[..n] + "_", rest, SQL);
    assert IsName(filename, filename[..n], rest);
  }

  lemma NameHasVersion(filename: string, version: string, rest: string)
    requires IsName(filename, version, rest)
    ensures MigrationVersion(filename) == Some(version)
  {
    Associative(version + "_", rest, SQL);
    Associative(version, "_", rest + SQL);
    DigitCountOf(version, "_" + (rest + SQL));
    assert filename[|version| + 1..] == rest + SQL;
    assert (rest + SQL)[|rest|..] == SQL;
  }

  lemma VersionIs(filename: string, version: string)
    ensures MigrationVersion(filename) == Some(version) <==> exists rest :: IsName(filename, version, rest)
  {
    if MigrationVersion(filename) == Some(version) {
      VersionHasName(filename);
    }
    if rest :| IsName(filename, version, rest) {
      NameHasVersion(filename, version, rest);
    }
  }

  predicate RecordedBy(filename: string, row: AppliedMigration) {
    || row.name == filename
    || row.version == MigrationId(filename)
    || Some(row.version) == MigrationVersion(filename)
  }

  function FindApplied(filename: string, applied: seq<AppliedMigration>): (r: Option<AppliedMigration>)
    ensures r.Some? <==> IsApplied(filename, applied)
    ensures r.Some? ==> r.value in applied && RecordedBy(filename, r.value)
  {
    if applied == [] then None
    else if RecordedBy(filename, applied[0]) then Some(applied[0])
    else FindApplied(filename, applied[1..])
  }

  /** It is the first row that records the file. */
  lemma {:induction false} FoundIsFirst(filename: string, applied: seq<AppliedMigration>, i: nat)
    requires i < |applied| && RecordedBy(filename, applied[i])
    requires forall j :: 0 <= j < i ==> !RecordedBy(filename, applied[j])
    ensures FindApplied(filename, applied) == Some(applied[i])
  {
    if i > 0 {
      FoundIsFirst(filename, applied[1..], i - 1);
    }
  }

  predicate IsApplied(filename: string, applied: seq<AppliedMigration>) {
    exists i :: 0 <= i < |applied| && RecordedBy(filename, applied[i])
  }

  /** The applied files that are no longer what was recorded. */
  function FindChanged(files: seq<string>, sum: string -> string, applied: seq<AppliedMigration>): seq<string> {
    if files == [] then []
    else
      var row := FindApplied(files[0], applied);
      (if row.Some? && row.value.checksum.Some? && row.value.checksum.value != sum(files[0]) then [files[0]] else [])
      + FindChanged(files[1..], sum, applied)
  }

  lemma {:induction false} ChangedIsDifferent(files: seq<string>, sum: string -> string, applied: seq<AppliedMigration>)
    ensures forall f :: f in FindChanged(files, sum, applied) <==>
              f in files && FindApplied(f, applied).Some? &&
                  FindApplied(f, applied).value.checksum !in {None, Some(sum(f))}
  {
    if files != [] {
      ChangedIsDifferent(files[1..], sum, applied);
    }
  }

  /** The row that the runner writes together with the migration. */
  function RowFor(filename: string, checksum: string): AppliedMigration {
    AppliedMigration(filename, MigrationId(filename), Some(checksum))
  }

  ghost predicate UniqueVersions(files: seq<string>) {
    && (forall i :: 0 <= i < |files| ==> IsValidName(files[i]))
    && forall i, j :: 0 <= i < j < |files| ==> MigrationVersion(files[i]) != MigrationVersion(files[j])
  }

  datatype CatalogError = InvalidName(filename: string) | DuplicateVersion(first: string, second: string)

  ghost predicate ListsVersion(files: seq<string>, v: string, f: string) {
    f in files && MigrationVersion(f) == Some(v)
  }

  ghost predicate IsFault(files: seq<string>, error: CatalogError) {
    match error
    case InvalidName(f) => f in files && !IsValidName(f)
    case DuplicateVersion(f, g) =>
      exists i, j :: 0 <= i < j < |files| && f == files[i] && g == files[j] &&
          MigrationVersion(f) == MigrationVersion(g)
  }

  /** versions maps every prefix of the files seen to one of them. */
  ghost predicate Seen(files: seq<string>, versions: map<string, string>) {
    && (forall v :: v in versions ==> ListsVersion(files, v, versions[v]))
    && forall i :: 0 <= i < |files| && IsValidName(files[i]) ==> MigrationVersion(files[i]).value in versions
  }

  lemma OneMoreIsUnique(files: seq<string>, file: string, versions: map<string, string>)
    requires UniqueVersions(files) && Seen(files, versions)
    requires IsValidName(file) && MigrationVersion(file).value !in versions
    ensures UniqueVersions(files + [file])
    ensures Seen(files + [file], versions[MigrationVersion(file).value := file])
  {
    var all, after := files + [file], versions[MigrationVersion(file).value := file];
    forall v | v in after
      ensures ListsVersion(all, v, after[v])
    {
      if after[v] != file {
        assert ListsVersion(files, v, versions[v]);
      }
    }
  }

  lemma SeenIsDuplicate(files: seq<string>, k: nat, versions: map<string, string>)
    requires k < |files| && Seen(files[..k], versions)
    requires IsValidName(files[k]) && MigrationVersion(files[k]).value in versions
    ensures !UniqueVersions(files)
    ensures IsFault(files, DuplicateVersion(versions[MigrationVersion(files[k]).value], files[k]))
  {
    var version := MigrationVersion(files[k]).value;
    assert ListsVersion(files[..k], version, versions[version]);
    var i: nat :| i < k && files[..k][i] == versions[version];
    assert files[i] == versions[version];
  }

  lemma InvalidIsFault(files: seq<string>, k: nat)
    requires k < |files| && !IsValidName(files[k])
    ensures !UniqueVersions(files) && IsFault(files, InvalidName(files[k]))
  {
  }

  /** Accepts a directory listing exactly when every name is valid and no two share a prefix;
      a refusal names files that are at fault. */
  method AssertUniqueVersions(files: seq<string>) returns (error: Option<CatalogError>)
    ensures error.None? <==> UniqueVersions(files)
    ensures error.Some? ==> IsFault(files, error.value)
  {
    var versions: map<string, string> := map[];
    var k := 0;
    while k < |files|
      invariant 0 <= k <= |files|
      invariant UniqueVersions(files[..k]) && Seen(files[..k], versions)
    {
      var version := MigrationVersion(files[k]);
      if version.None? {
        InvalidIsFault(files, k);
        return Some(InvalidName(files[k]));
      }
      if version.value in versions {
        SeenIsDuplicate(files, k, versions);
        return Some(DuplicateVersion(versions[version.value], files[k]));
      }
      OneMoreIsUnique(files[..k], files[k], versions);
      versions := versions[version.value := files[k]];
      assert files[..k + 1] == files[..k] + [files[k]];
      k := k + 1;
    }
    assert files[..k] == files;
    return None;
  }

  lemma NameParts(f: string)
    requires IsValidName(f)
    ensures f == MigrationId(f) + SQL
    ensures DigitCount(f) < |MigrationId(f)| && MigrationId(f)[DigitCount(f)] == '_'
  {
    var n := DigitCount(f);
    assert f[n + 1..][|f| - n - 1 - |SQL|..] == f[|f| - |SQL|..];
  }

  /** A valid name's identity is its prefix, an underscore and a rest: never digits alone. */
  lemma IdIsNotAVersion(f: string, g: string)
    requires IsValidName(f) && IsValidName(g)
    ensures Some(MigrationId(f)) != MigrationVersion(g)
    ensures MigrationId(f) == MigrationId(g) ==> f == g
  {
    NameParts(f);
    NameParts(g);
    assert AllDigits(MigrationVersion(g).value);
  }

  /** With distinct prefixes, a row written by a runner, new style or numeric, is found by its
      own file only. */
  lemma LookupIsUnambiguous(files: seq<string>, f: string, g: string, row: AppliedMigration)
    requires UniqueVersions(files) && f in files && g in files
    requires row.name == f && (row.version == MigrationId(f) || Some(row.version) == MigrationVersion(f))
    ensures RecordedBy(g, row) <==> g == f
  {
    IdIsNotAVersion(f, g);
    IdIsNotAVersion(g, f);
  }

  /** A row that pairs the name of one file with the identity or prefix of another. */
  predicate Mixes(row: AppliedMigration, f: string, g: string) {
    row.name == f && (row.version == MigrationId(g) || Some(row.version) == MigrationVersion(g))
  }

  /** Such rows, which no runner writes, are the only ones that two files of a catalogue find. */
  lemma AmbiguousRowsAreMixed(files: seq<string>, f: string, g: string, row: AppliedMigration)
    requires UniqueVersions(files) && f in files && g in files && f != g
    ensures RecordedBy(f, row) && RecordedBy(g, row) <==> Mixes(row, f, g) || Mixes(row, g, f)
  {
    IdIsNotAVersion(f, g);
    IdIsNotAVersion(g, f);
  }

  // ---------------------------------------------------------------- order

  /** The comparison of sortMigrationFiles: by number, then by the locale's order, which is all
      there is for a name without a number. */
  predicate Precedes(f: string, g: string, localeLess: (string, string) -> bool) {
    if !IsValidName(f) || !IsValidName(g) then localeLess(f, g)
    else
      var a, b := Number(MigrationVersion(f).value), Number(MigrationVersion(g).value);
      a < b || (a == b && localeLess(f, g))
  }

  ghost predicate StrictTotalOrder(less: (string, string) -> bool) {
    && (forall a :: !less(a, a))
    && (forall a, b :: a != b ==> less(a, b) || less(b, a))
    && (forall a, b, c :: less(a, b) && less(b, c) ==> less(a, c))
  }

  ghost predicate Sorted(files: seq<string>, localeLess: (string, string) -> bool) {
    && (forall i :: 0 <= i < |files| ==> IsValidName(files[i]))
    && forall i, j :: 0 <= i < j < |files| ==> Precedes(files[i], files[j], localeLess)
  }

  lemma HeadPrecedes(files: seq<string>, localeLess: (string, string) -> bool, g: string)
    requires Sorted(files, localeLess) && g in files
    ensures g == files[0] || Precedes(files[0], g, localeLess)
  {
    var j :| 0 <= j < |files| && files[j] == g;
  }

  lemma SameElements(a: seq<string>, b: seq<string>, f: string)
    requires multiset(a) == multiset(b) && f in a
    ensures f in b
  {
    assert f in multiset(b);
  }

  /** Every runner that lists the same directory applies the same order. */
  lemma {:induction false} SortedOrderIsUnique(a: seq<string>, b: seq<string>, localeLess: (string, string) -> bool)
    requires StrictTotalOrder(localeLess)
    requires Sorted(a, localeLess) && Sorted(b, localeLess) && multiset(a) == multiset(b)
    ensures a == b
  {
    assert |multiset(a)| == |a| && |multiset(b)| == |b|;
    if a != [] {
      SameHead(a, b, localeLess);
      TailElements(a, b);
      SortedOrderIsUnique(a[1..], b[1..], localeLess);
    }
  }

  lemma SameHead(a: seq<string>, b: seq<string>, localeLess: (string, string) -> bool)
    requires StrictTotalOrder(localeLess)
    requires Sorted(a, localeLess) && Sorted(b, localeLess) && multiset(a) == multiset(b) && a != [] && b != []
    ensures a[0] == b[0]
  {
    SameElements(a, b, a[0]);
    SameElements(b, a, b[0]);
    HeadPrecedes(a, localeLess, b[0]);
    HeadPrecedes(b, localeLess, a[0]);
  }

  lemma TailElements(a: seq<string>, b: seq<string>)
    requires multiset(a) == multiset(b) && a != [] && b != [] && a[0] == b[0]
    ensures multiset(a[1..]) == multiset(b[1..])
  {
    assert a == [a[0]] + a[1..] && b == [b[0]] + b[1..];
    assert multiset(a[1..]) == multiset(a) - multiset{a[0]};
    assert multiset(b[1..]) == multiset(b) - multiset{b[0]};
  }

  function Insert(file: string, files: seq<string>, localeLess: (string, string) -> bool): seq<string> {
    if files == [] || Precedes(file, files[0], localeLess) then [file] + files
    else [files[0]] + Insert(file, files[1..], localeLess)
  }

  /** sortMigrationFiles */
  function SortFiles(files: seq<string>, localeLess: (string, string) -> bool): seq<string> {
    if files == [] then [] else Insert(files[0], SortFiles(files[1..], localeLess), localeLess)
  }

  lemma {:induction false} InsertAdds(file: string, files: seq<string>, localeLess: (string, string) -> bool)
    ensures multiset(Insert(file, files, localeLess)) == multiset(files) + multiset{file}
  {
    if files != [] && !Precedes(file, files[0], localeLess) {
      InsertAdds(file, files[1..], localeLess);
      assert files == [files[0]] + files[1..];
    }
  }

  lemma {:induction false} SortKeepsFiles(files: seq<string>, localeLess: (string, string) -> bool)
    ensures multiset(SortFiles(files, localeLess)) == multiset(files)
  {
    if files != [] {
      SortKeepsFiles(files[1..], localeLess);
      InsertAdds(files[0], SortFiles(files[1..], localeLess), localeLess);
      assert files == [files[0]] + files[1..];
    }
  }

  ghost predicate AllValid(files: seq<string>) {
    forall f :: f in files ==> IsValidName(f)
  }

  /** No file stands behind one that it precedes. */
  ghost predicate NoneBehind(files: seq<string>, localeLess: (string, string) -> bool) {
    forall i, j :: 0 <= i < j < |files| ==> !Precedes(files[j], files[i], localeLess)
  }

  lemma PrecedesIsTransitive(f: string, g: string, h: string, localeLess: (string, string) -> bool)
    requires StrictTotalOrder(localeLess) && IsValidName(f) && IsValidName(g) && IsValidName(h)
    ensures !Precedes(f, f, localeLess)
    ensures Precedes(f, g, localeLess) && Precedes(g, h, localeLess) ==> Precedes(f, h, localeLess)
  {
  }

  lemma InFront(file: string, files: seq<string>, localeLess: (string, string) -> bool)
    requires forall g :: g in files ==> !Precedes(g, file, localeLess)
    requires NoneBehind(files, localeLess)
    ensures NoneBehind([file] + files, localeLess)
  {
    var all := [file] + files;
    forall i, j | 0 <= i < j < |all|
      ensures !Precedes(all[j], all[i], localeLess)
    {
      assert all[j] == files[j - 1];
    }
  }

  lemma NoneBefore(file: string, files: seq<string>, g: string, localeLess: (string, string) -> bool)
    requires StrictTotalOrder(localeLess) && AllValid(files) && IsValidName(file) && NoneBehind(files, localeLess)
    requires g in files && Precedes(file, files[0], localeLess)
    ensures !Precedes(g, file, localeLess)
  {
    var j :| 0 <= j < |files| && files[j] == g;
    PrecedesIsTransitive(g, file, files[0], localeLess);
    PrecedesIsTransitive(g, g, g, localeLess);
    assert j > 0 ==> !Precedes(files[j], files[0], localeLess);
  }

  lemma {:induction false} InsertKeepsOrder(file: string, files: seq<string>, localeLess: (string, string) -> bool)
    requires StrictTotalOrder(localeLess) && AllValid(files) && IsValidName(file) && NoneBehind(files, localeLess)
    ensures NoneBehind(Insert(file, files, localeLess), localeLess)
    ensures forall g :: g in Insert(file, files, localeLess) <==> g in files || g == file
  {
    if files == [] || Precedes(file, files[0], localeLess) {
      forall g | g in files
        ensures !Precedes(g, file, localeLess)
      {
        NoneBefore(file, files, g, localeLess);
      }
      InFront(file, files, localeLess);
    } else {
      InsertKeepsOrder(file, files[1..], localeLess);
      assert forall j :: 0 < j < |files| ==> !Precedes(files[j], files[0], localeLess);
      InFront(files[0], Insert(file, files[1..], localeLess), localeLess);
    }
  }

  lemma {:induction false} SortSorts(files: seq<string>, localeLess: (string, string) -> bool)
    requires StrictTotalOrder(localeLess) && AllValid(files)
    ensures NoneBehind(SortFiles(files, localeLess), localeLess) && AllValid(SortFiles(files, localeLess))
  {
    if files != [] {
      SortSorts(files[1..], localeLess);
      InsertKeepsOrder(files[0], SortFiles(files[1..], localeLess), localeLess);
    }
  }

  /** Files are applied by number; the locale decides between files of one number only. */
  lemma SortsByNumber(files: seq<string>, localeLess: (string, string) -> bool, i: nat, j: nat)
    requires StrictTotalOrder(localeLess) && AllValid(files)
    requires i < j < |SortFiles(files, localeLess)|
    ensures var f, g := SortFiles(files, localeLess)[i], SortFiles(files, localeLess)[j];
            && f in files && g in files
            && var a, b := Number(MigrationVersion(f).value), Number(MigrationVersion(g).value);
               a < b || (a == b && (f == g || localeLess(f, g)))
  {
    SortSorts(files, localeLess);
    SortKeepsFiles(files, localeLess);
    SameElements(SortFiles(files, localeLess), files, SortFiles(files, localeLess)[i]);
    SameElements(SortFiles(files, localeLess), files, SortFiles(files, localeLess)[j]);
  }

  lemma DistinctOrderIsSorted(files: seq<string>, localeLess: (string, string) -> bool)
    requires StrictTotalOrder(localeLess) && UniqueVersions(files) && NoneBehind(files, localeLess)
    ensures Sorted(files, localeLess)
  {
  }

  function SqlFiles(listing: seq<string>): seq<string> {
    if listing == [] then []
    else (if EndsWithSql(listing[0]) then [listing[0]] else []) + SqlFiles(listing[1..])
  }

  /** readMigrationFiles: the .sql files of a listing in the one order there is, or the fault. */
  method ReadMigrationFiles(listing: seq<string>, localeLess: (string, string) -> bool)
    returns (files: seq<string>, error: Option<CatalogError>)
    ensures multiset(files) == multiset(SqlFiles(listing))
    ensures error.None? <==> UniqueVersions(files)
    ensures error.Some? ==> IsFault(files, error.value)
    ensures error.None? && StrictTotalOrder(localeLess) ==> Sorted(files, localeLess)
  {
    files := SortFiles(SqlFiles(listing), localeLess);
    SortKeepsFiles(SqlFiles(listing), localeLess);
    error := AssertUniqueVersions(files);
    if error.None? && StrictTotalOrder(localeLess) {
      SortedIfUnique(SqlFiles(listing), localeLess);
    }
  }

  lemma SortedIfUnique(listing: seq<string>, localeLess: (string, string) -> bool)
    requires StrictTotalOrder(localeLess) && UniqueVersions(SortFiles(listing, localeLess))
    ensures Sorted(SortFiles(listing, localeLess), localeLess)
  {
    var files := SortFiles(listing, localeLess);
    SortKeepsFiles(listing, localeLess);
    forall f | f in listing
      ensures IsValidName(f)
    {
      SameElements(listing, files, f);
    }
    SortSorts(listing, localeLess);
    DistinctOrderIsSorted(files, localeLess);
  }

  lemma {:induction false} SqlFilesCounted(listing: seq<string>, f: string)
    ensures multiset(SqlFiles(listing))[f] == if EndsWithSql(f) then multiset(listing)[f] else 0
  {
    if listing != [] {
      SqlFilesCounted(listing[1..], f);
      assert listing == [listing[0]] + listing[1..];
    }
  }

  lemma SameSqlFiles(a: seq<string>, b: seq<string>)
    requires multiset(a) == multiset(b)
    ensures multiset(SqlFiles(a)) == multiset(SqlFiles(b))
  {
    forall f: string
      ensures multiset(SqlFiles(a))[f] == multiset(SqlFiles(b))[f]
    {
      SqlFilesCounted(a, f);
      SqlFilesCounted(b, f);
    }
  }

  lemma TwicePresent(files: seq<string>, i: nat, j: nat)
    requires i < j < |files| && files[i] == files[j]
    ensures multiset(files)[files[i]] >= 2
  {
    var front, back := files[..j], files[j..];
    assert files == front + back && front[i] == files[i] && back[0] == files[i];
    assert files[i] in multiset(front) && files[i] in multiset(back);
  }

  lemma {:induction false} TwoPlaces(files: seq<string>, f: string) returns (i: nat, j: nat)
    requires multiset(files)[f] >= 2
    ensures i < j < |files| && files[i] == f && files[j] == f
  {
    assert files == [files[0]] + files[1..];
    if files[0] == f {
      assert f in multiset(files[1..]);
      var k: nat :| k < |files[1..]| && files[1..][k] == f;
      i, j := 0, k + 1;
    } else {
      i, j := TwoPlaces(files[1..], f);
      i, j := i + 1, j + 1;
    }
  }

  lemma OnceOnly(files: seq<string>, f: string)
    requires UniqueVersions(files)
    ensures multiset(files)[f] <= 1
  {
    if multiset(files)[f] >= 2 {
      var i, j := TwoPlaces(files, f);
    }
  }

  lemma ReorderedIsUnique(a: seq<string>, b: seq<string>)
    requires multiset(a) == multiset(b) && UniqueVersions(a)
    ensures UniqueVersions(b)
  {
    forall i | 0 <= i < |b|
      ensures IsValidName(b[i])
    {
      SameElements(b, a, b[i]);
    }
    forall i, j | 0 <= i < j < |b|
      ensures MigrationVersion(b[i]) != MigrationVersion(b[j])
    {
      if b[i] == b[j] {
        TwicePresent(b, i, j);
        OnceOnly(a, b[i]);
      } else {
        SameElements(b, a, b[i]);
        SameElements(b, a, b[j]);
        var m: nat, n: nat :| m < |a| && n < |a| && a[m] == b[i] && a[n] == b[j];
        assert m < n || n < m;
      }
    }
  }

  /** In whatever order a directory is listed, every runner refuses it or every runner gets the
      same files in the same order. */
  lemma ListingOrderDoesNotMatter(a: seq<string>, b: seq<string>, localeLess: (string, string) -> bool)
    requires StrictTotalOrder(localeLess) && multiset(a) == multiset(b)
    ensures var first, second := SortFiles(SqlFiles(a), localeLess), SortFiles(SqlFiles(b), localeLess);
            && (UniqueVersions(first) <==> UniqueVersions(second))
            && (UniqueVersions(first) ==> first == second)
  {
    var first, second := SortFiles(SqlFiles(a), localeLess), SortFiles(SqlFiles(b), localeLess);
    SameSqlFiles(a, b);
    SortKeepsFiles(SqlFiles(a), localeLess);
    SortKeepsFiles(SqlFiles(b), localeLess);
    if UniqueVersions(first) {
      ReorderedIsUnique(first, second);
      SortedIfUnique(SqlFiles(a), localeLess);
      SortedIfUnique(SqlFiles(b), localeLess);
      SortedOrderIsUnique(first, second, localeLess);
    } else if UniqueVersions(second) {
      ReorderedIsUnique(second, first);
    }
  }
}
