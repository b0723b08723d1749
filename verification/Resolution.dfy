/**
 The canonical resolution manifest (src/apx_resolution.py): resolver rows joined with two repository
 databases, sorted and summed. A row is one line cut at its bars; an empty line is [""].
 */
module Resolution {
  import opened Common
  import opened Ordering

  const MAX_PACKAGES := 512
  const MAX_AGGREGATE_BYTES := 4 * 1024 * 1024 * 1024
  const OUTPUT_MAX := 2 * 1024 * 1024
  const BASE_URI := "https://archive.archlinux.org/repos/2026/07/11"
  const BASE_PACKAGES: seq<string> := ["base", "ca-certificates", "dbus-broker", "iproute2", "iputils", "sudo"]
  const CORE_DIGEST := "12aea0ea6b5a16125064a19c7e8415d22e19b4517896d09eb2eb6cb2ee60b295"
  const EXTRA_DIGEST := "5a5f994a35a6cf65ff2adb6b5f61aa4349aba62f8ee2a286d45b8d80819f43f7"

  type Row = seq<string>

  datatype RepositoryPackage = RepositoryPackage(
    repository: string, name: string, version: string, architecture: string, filename: string,
    compressedSize: int, sha256: string, pgpSignature: string)

  datatype RepositoryDatabase = RepositoryDatabase(repository: string, fileSha256: string,
                                                   packages: seq<RepositoryPackage>)

  datatype ResolvedPackage = ResolvedPackage(
    repository: string, name: string, version: string, architecture: string, filename: string,
    compressedSize: int, sha256: string, databaseSignature: string, packageUri: string, signatureUri: string)

  datatype Draft = Draft(
    schemaVersion: int, planDigest: string, databaseDigests: seq<(string, string)>, seeds: seq<string>,
    packages: seq<ResolvedPackage>, aggregate: int)

  /** SHA-256 of the canonical JSON as a free constructor, or a digest supplied as text. */
  datatype Digest = Text(text: string) | OfDraft(draft: Draft)

  datatype Manifest = Manifest(draft: Draft, digest: Digest)

  type Catalogue = map<(string, string), RepositoryPackage>

  function PackageUri(repository: string, filename: string): string {
    BASE_URI + "/" + repository + "/os/x86_64/" + filename
  }

  // ---------------------------------------------------------------- the specification

  function Key(package: RepositoryPackage): (string, string) {
    (package.repository, package.name)
  }

  function AddPackages(catalogue: Catalogue, packages: seq<RepositoryPackage>): Result<Catalogue> {
    if packages == [] then Success(catalogue)
    else
      var before :- AddPackages(catalogue, packages[..|packages| - 1]);
      var package := packages[|packages| - 1];
      if Key(package) in before then Failure else Success(before[Key(package) := package])
  }

  function AddDatabases(databases: seq<RepositoryDatabase>): Result<Catalogue> {
    if databases == [] then Success(map[])
    else
      var before :- AddDatabases(databases[..|databases| - 1]);
      var database := databases[|databases| - 1];
      if database.repository !in {"core", "extra"} then Failure else AddPackages(before, database.packages)
  }

  function Digests(databases: seq<RepositoryDatabase>): seq<(string, string)> {
    seq(|databases|, i requires 0 <= i < |databases| => (databases[i].repository, databases[i].fileSha256))
  }

  /** Sorted, the repositories are core and extra. */
  predicate CoreAndExtra(databases: seq<RepositoryDatabase>) {
    && |databases| == 2
    && (   (databases[0].repository == "core" && databases[1].repository == "extra")
        || (databases[0].repository == "extra" && databases[1].repository == "core"))
  }

  /** A seven-field row that agrees with the database entry it names. */
  function ResolveRow(catalogue: Catalogue, row: Row): Result<ResolvedPackage> {
    if |row| != 7 then Failure
    else
      var (repository, name, version, architecture) := (row[0], row[1], row[2], row[3]);
      var (filename, size, uri) := (row[4], row[5], row[6]);
      if (repository, name) !in catalogue || size == "" || !AllDigits(size) then Failure
      else
        var record := catalogue[(repository, name)];
        if version != record.version || architecture != record.architecture || filename != record.filename
           || Decimal(size) != record.compressedSize || uri != PackageUri(repository, record.filename) then Failure
        else
          Success(ResolvedPackage(repository, name, version, architecture, filename, Decimal(size),
                                  record.sha256, record.pgpSignature, uri, uri + ".sig"))
  }

  function Names(resolved: seq<ResolvedPackage>): set<string> {
    set package | package in resolved :: package.name
  }

  /** Every non-empty row resolved, no package name twice. */
  function Resolve(catalogue: Catalogue, rows: seq<Row>): Result<seq<ResolvedPackage>> {
    if rows == [] then Success([])
    else
      var before :- Resolve(catalogue, rows[..|rows| - 1]);
      var row := rows[|rows| - 1];
      if row == [""] then Success(before)
      else
        var package :- ResolveRow(catalogue, row);
        if package.name in Names(before) then Failure else Success(before + [package])
  }

  function Total(resolved: seq<ResolvedPackage>): int {
    if resolved == [] then 0 else Total(resolved[..|resolved| - 1]) + resolved[|resolved| - 1].compressedSize
  }

  predicate KeyLeq(a: ResolvedPackage, b: ResolvedPackage) {
    if a.repository == b.repository then TextLeq(a.filename, b.filename) else TextLeq(a.repository, b.repository)
  }

  predicate PairLeq(a: (string, string), b: (string, string)) {
    if a.0 == b.0 then TextLeq(a.1, b.1) else TextLeq(a.0, b.0)
  }

  predicate HasEverySeed(names: set<string>) {
    forall i | 0 <= i < |BASE_PACKAGES| :: BASE_PACKAGES[i] in names
  }

  function WithDigest(draft: Draft): Manifest {
    Manifest(draft, OfDraft(draft))
  }

  function Build(rows: seq<Row>, outputBytes: nat, databases: seq<RepositoryDatabase>,
                 planDigest: string): Result<Manifest> {
    if outputBytes > OUTPUT_MAX || !IsHexDigest(planDigest) then Failure
    else
      var catalogue :- AddDatabases(databases);
      if !CoreAndExtra(databases) then Failure
      else
        var resolved :- Resolve(catalogue, rows);
        if !(0 < |resolved| <= MAX_PACKAGES) || !HasEverySeed(Names(resolved)) || Total(resolved) > MAX_AGGREGATE_BYTES
        then Failure
        else
          Success(WithDigest(Draft(1, planDigest, Sort(Digests(databases), PairLeq), BASE_PACKAGES,
                                   Sort(resolved, KeyLeq), Total(resolved))))
  }

  // ---------------------------------------------------------------- the loops

  method FillCatalogue(databases: seq<RepositoryDatabase>) returns (result: Result<Catalogue>)
    ensures result == AddDatabases(databases)
  {
    var catalogue: Catalogue := map[];
    var i := 0;
    assert databases[..0] == [];
    while i < |databases|
      invariant 0 <= i <= |databases| && AddDatabases(databases[..i]) == Success(catalogue)
    {
      var database := databases[i];
      assert databases[..i + 1][..i] == databases[..i];
      if database.repository !in {"core", "extra"} {
        DatabaseFailureStays(databases, i + 1);
        return Failure;
      }
      ghost var before := catalogue;
      var j := 0;
      assert database.packages[..0] == [];
      while j < |database.packages|
        invariant 0 <= j <= |database.packages| && AddPackages(before, database.packages[..j]) == Success(catalogue)
      {
        var package := database.packages[j];
        assert database.packages[..j + 1][..j] == database.packages[..j];
        if Key(package) in catalogue {
          PackageFailureStays(before, database.packages, j + 1);
          DatabaseFailureStays(databases, i + 1);
          return Failure;
        }
        catalogue := catalogue[Key(package) := package];
        j := j + 1;
      }
      assert database.packages[..j] == database.packages;
      i := i + 1;
    }
    assert databases[..i] == databases;
    result := Success(catalogue);
  }

  lemma {:induction false} PackageFailureStays(catalogue: Catalogue, packages: seq<RepositoryPackage>, i: nat)
    requires i <= |packages| && AddPackages(catalogue, packages[..i]).Failure?
    ensures AddPackages(catalogue, packages).Failure?
    decreases |packages| - i
  {
    if i == |packages| {
      assert packages[..i] == packages;
    } else {
      assert packages[..i + 1][..i] == packages[..i];
      PackageFailureStays(catalogue, packages, i + 1);
    }
  }

  lemma {:induction false} DatabaseFailureStays(databases: seq<RepositoryDatabase>, i: nat)
    requires i <= |databases| && AddDatabases(databases[..i]).Failure?
    ensures AddDatabases(databases).Failure?
    decreases |databases| - i
  {
    if i == |databases| {
      assert databases[..i] == databases;
    } else {
      assert databases[..i + 1][..i] == databases[..i];
      DatabaseFailureStays(databases, i + 1);
    }
  }

  method ResolveRows(catalogue: Catalogue, rows: seq<Row>)
      returns (result: Result<seq<ResolvedPackage>>, names: set<string>)
    ensures result == Resolve(catalogue, rows)
    ensures result.Success? ==> names == Names(result.value)
  {
    hide ResolveRow;
    var resolved: seq<ResolvedPackage> := [];
    names := {};
    var i := 0;
    assert rows[..0] == [];
    while i < |rows|
      invariant 0 <= i <= |rows| && Resolve(catalogue, rows[..i]) == Success(resolved)
      invariant names == Names(resolved)
    {
      var row := rows[i];
      assert rows[..i + 1][..i] == rows[..i];
      if row != [""] {
        var package := ResolveRow(catalogue, row);
        if package.Failure? || package.value.name in names {
          RowFailureStays(catalogue, rows, i + 1);
          return Failure, names;
        }
        names := names + {package.value.name};
        resolved := resolved + [package.value];
      }
      i := i + 1;
    }
    assert rows[..i] == rows;
    result := Success(resolved);
  }

  lemma {:induction false} RowFailureStays(catalogue: Catalogue, rows: seq<Row>, i: nat)
    requires i <= |rows| && Resolve(catalogue, rows[..i]).Failure?
    ensures Resolve(catalogue, rows).Failure?
    decreases |rows| - i
  {
    hide ResolveRow;
    if i == |rows| {
      assert rows[..i] == rows;
    } else {
      assert rows[..i + 1][..i] == rows[..i];
      RowFailureStays(catalogue, rows, i + 1);
    }
  }

  /** `build_resolution_manifest`. */
  method BuildResolutionManifest(rows: seq<Row>, outputBytes: nat, databases: seq<RepositoryDatabase>,
                                 planDigest: string)
      returns (result: Result<Manifest>)
    ensures result == Build(rows, outputBytes, databases, planDigest)
  {
    hide Resolve, Total, Names, AddDatabases, Sort;
    if outputBytes > OUTPUT_MAX || !IsHexDigest(planDigest) {
      return Failure;
    }
    var catalogue := FillCatalogue(databases);
    if catalogue.Failure? || !CoreAndExtra(databases) {
      return Failure;
    }
    var resolved, names := ResolveRows(catalogue.value, rows);
    if resolved.Failure? || !(0 < |resolved.value| <= MAX_PACKAGES) || !HasEverySeed(names) {
      return Failure;
    }
    var aggregate := SumSizes(resolved.value);
    if aggregate > MAX_AGGREGATE_BYTES {
      return Failure;
    }
    result := Success(WithDigest(Draft(1, planDigest, Sort(Digests(databases), PairLeq), BASE_PACKAGES,
                                       Sort(resolved.value, KeyLeq), aggregate)));
  }

  method SumSizes(resolved: seq<ResolvedPackage>) returns (total: int)
    ensures total == Total(resolved)
  {
    total := 0;
    for i := 0 to |resolved|
      invariant total == Total(resolved[..i])
    {
      assert resolved[..i + 1][..i] == resolved[..i];
      total := total + resolved[i].compressedSize;
    }
    assert resolved[..|resolved|] == resolved;
  }

  // ---------------------------------------------------------------- what the parser demands

  predicate AllDistinct(values: seq<string>) {
    forall i, j | 0 <= i < j < |values| :: values[i] != values[j]
  }

  function Filenames(packages: seq<ResolvedPackage>): seq<string> {
    seq(|packages|, i requires 0 <= i < |packages| => packages[i].filename)
  }

  function PackageNames(packages: seq<ResolvedPackage>): seq<string> {
    seq(|packages|, i requires 0 <= i < |packages| => packages[i].name)
  }

  predicate SoundPackage(package: ResolvedPackage) {
    && package.repository in {"core", "extra"} && package.architecture in {"any", "x86_64"}
    && package.compressedSize >= 0 && |package.sha256| == 64
    && package.packageUri == PackageUri(package.repository, package.filename)
    && package.signatureUri == package.packageUri + ".sig"
  }

  /** The invariants `parse_resolution_manifest` checks on the values. */
  predicate Parses(manifest: Manifest) {
    var draft := manifest.draft;
    && draft.schemaVersion == 1
    && draft.seeds == BASE_PACKAGES
    && draft.databaseDigests == [("core", CORE_DIGEST), ("extra", EXTRA_DIGEST)]
    && 0 < |draft.packages| <= MAX_PACKAGES
    && draft.aggregate == Total(draft.packages) <= MAX_AGGREGATE_BYTES
    && draft.packages == Sort(draft.packages, KeyLeq)
    && AllDistinct(PackageNames(draft.packages)) && AllDistinct(Filenames(draft.packages))
    && manifest.digest == OfDraft(draft)
    && (forall i | 0 <= i < |draft.packages| :: SoundPackage(draft.packages[i]))
  }
}
