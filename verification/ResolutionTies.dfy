/** A manifest that does depend on the order of its rows: packages of one repository under one filename. */
module ResolutionTies {
  import opened Common
  import opened Ordering
  import opened Resolution
  import opened ResolutionProofs

  /** The fixed seeds, each a package of core, and all of them claiming one file. */
  function TiedPackage(i: nat, sha256: string): RepositoryPackage
    requires i < |BASE_PACKAGES|
  {
    RepositoryPackage("core", BASE_PACKAGES[i], "1-1", "any", "one.pkg", 0, sha256, "")
  }

  function TiedRow(i: nat): Row
    requires i < |BASE_PACKAGES|
  {
    ["core", BASE_PACKAGES[i], "1-1", "any", "one.pkg", "0", PackageUri("core", "one.pkg")]
  }

  function TiedPackages(sha256: string): seq<RepositoryPackage> {
    seq(|BASE_PACKAGES|, i requires 0 <= i < |BASE_PACKAGES| => TiedPackage(i, sha256))
  }

  function TiedRows(): seq<Row> {
    seq(|BASE_PACKAGES|, i requires 0 <= i < |BASE_PACKAGES| => TiedRow(i))
  }

  function TiedDatabases(sha256: string): seq<RepositoryDatabase> {
    [RepositoryDatabase("core", CORE_DIGEST, TiedPackages(sha256)), RepositoryDatabase("extra", EXTRA_DIGEST, [])]
  }

  lemma SeedsDiffer(i: nat, j: nat)
    requires i < j < |BASE_PACKAGES|
    ensures BASE_PACKAGES[i] != BASE_PACKAGES[j]
  {
    assert "base"[0] == 'b' && "ca-certificates"[0] == 'c' && "dbus-broker"[0] == 'd' && "sudo"[0] == 's';
    assert "iproute2"[0] == 'i' && "iputils"[0] == 'i' && "iproute2"[2] == 'r' && "iputils"[2] == 'u';
  }

  /** The databases form a catalogue of exactly those packages. */
  lemma TiedCatalogue(sha256: string)
    ensures AddDatabases(TiedDatabases(sha256)).Success?
    ensures Catalogues(AddDatabases(TiedDatabases(sha256)).value, TiedPackages(sha256))
  {
    hide AddDatabases, AddPackages, Catalogues;
    var packages := TiedPackages(sha256);
    forall i, j | 0 <= i < j < |packages| ensures Key(packages[i]) != Key(packages[j]) {
      SeedsDiffer(i, j);
    }
    assert "core"[0] != "extra"[0];
    AddTwoDatabases(TiedDatabases(sha256));
    assert packages + [] == packages;
    PackagesExactlyWhen(packages);
  }

  function TiedImage(i: nat, sha256: string): ResolvedPackage
    requires i < |BASE_PACKAGES|
  {
    var uri := PackageUri("core", "one.pkg");
    ResolvedPackage("core", BASE_PACKAGES[i], "1-1", "any", "one.pkg", 0, sha256, "", uri, uri + ".sig")
  }

  lemma TiedRowResolves(sha256: string, catalogue: Catalogue, i: nat)
    requires i < |BASE_PACKAGES| && Catalogues(catalogue, TiedPackages(sha256))
    ensures !Blank(TiedRow(i)) && ResolveRow(catalogue, TiedRow(i)) == Success(TiedImage(i, sha256))
  {
    var package := TiedPackage(i, sha256);
    assert TiedPackages(sha256)[i] == package;
    assert package in TiedPackages(sha256);
    assert Key(package) == ("core", BASE_PACKAGES[i]);
    assert "0"[..0] == "" && Decimal("0") == 0;
    assert |TiedRow(i)| == 7;
  }

  lemma {:induction false} ImagesAreFew(catalogue: Catalogue, rows: seq<Row>)
    ensures |Images(catalogue, rows)| <= |rows|
  {
    hide ResolveRow;
    if rows == [] {
    } else {
      ImagesAreFew(catalogue, rows[..|rows| - 1]);
    }
  }

  lemma {:induction false} NothingToSum(packages: seq<ResolvedPackage>)
    requires forall package | package in packages :: package.compressedSize == 0
    ensures Total(packages) == 0
  {
    if packages == [] {
    } else {
      NothingToSum(packages[..|packages| - 1]);
    }
  }

  /** Every row resolves to its image, and nothing else is resolved. */
  lemma TiedImages(sha256: string, catalogue: Catalogue)
    requires Catalogues(catalogue, TiedPackages(sha256))
    ensures RowsAgree(catalogue, TiedRows())
    ensures forall i | 0 <= i < |BASE_PACKAGES| :: TiedImage(i, sha256) in Images(catalogue, TiedRows())
    ensures forall package | package in Images(catalogue, TiedRows()) :: package.compressedSize == 0
  {
    hide Catalogues, ResolveRow, Images;
    var rows := TiedRows();
    forall i | 0 <= i < |rows|
      ensures !Blank(rows[i]) && ResolveRow(catalogue, rows[i]) == Success(TiedImage(i, sha256))
    {
      TiedRowResolves(sha256, catalogue, i);
    }
    forall i, j | 0 <= i < j < |rows|
      ensures ResolveRow(catalogue, rows[i]).value.name != ResolveRow(catalogue, rows[j]).value.name
    {
      SeedsDiffer(i, j);
    }
    ImagesAreResolved(catalogue, rows);
    forall i | 0 <= i < |BASE_PACKAGES| ensures TiedImage(i, sha256) in Images(catalogue, rows) {
      assert Resolves(catalogue, rows, TiedImage(i, sha256));
    }
    forall package | package in Images(catalogue, rows) ensures package.compressedSize == 0 {
      assert Resolves(catalogue, rows, package);
    }
  }

  /** For every plan such a manifest is built, and another order of its rows gives another one. */
  lemma SomeManifestDependsOnTheOrder(planDigest: string)
    requires IsHexDigest(planDigest)
    ensures exists rows: seq<Row>, databases: seq<RepositoryDatabase> ::
              Build(rows, 0, databases, planDigest).Success? && !OrderDoesNotMatter(rows, 0, databases, planDigest)
  {
    var rows, databases := TiedRows(), TiedDatabases(planDigest);
    TiedCatalogue(planDigest);
    var catalogue := AddDatabases(databases).value;
    TiedImages(planDigest, catalogue);
    TiedIsBuilt(planDigest);
    hide AddDatabases, Build, OrderDoesNotMatter, Images;
    CanonicalExactlyWhen(rows, 0, databases, planDigest);
    SeedsDiffer(0, 1);
    assert TiedImage(0, planDigest) != TiedImage(1, planDigest);
    assert !DistinctKeys(Images(catalogue, rows));
  }

  lemma TiedIsBuilt(planDigest: string)
    requires IsHexDigest(planDigest)
    ensures Build(TiedRows(), 0, TiedDatabases(planDigest), planDigest).Success?
  {
    hide AddDatabases, Build, Images, Sort, RowsAgree, Total;
    var rows, databases := TiedRows(), TiedDatabases(planDigest);
    TiedCatalogue(planDigest);
    var catalogue := AddDatabases(databases).value;
    TiedImages(planDigest, catalogue);
    var images := Images(catalogue, rows);
    ImagesAreFew(catalogue, rows);
    NothingToSum(images);
    assert TiedImage(0, planDigest) in images;
    forall i | 0 <= i < |BASE_PACKAGES| ensures BASE_PACKAGES[i] in Names(images) {
      assert TiedImage(i, planDigest) in images;
    }
    BuildInParts(rows, 0, databases, planDigest);
  }
}
