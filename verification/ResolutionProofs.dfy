/** The resolution manifest does not depend on the order of its inputs, and when it parses. */
module ResolutionProofs {
  import opened Common
  import opened Ordering
  import opened Resolution

  // ---------------------------------------------------------------- the orders

  lemma KeyLeqIsTotalPreorder()
    ensures TotalPreorder(KeyLeq)
  {
    forall a: ResolvedPackage, b: ResolvedPackage ensures KeyLeq(a, b) || KeyLeq(b, a) {
      TextLeqIsTotal(a.repository, b.repository);
      TextLeqIsTotal(a.filename, b.filename);
    }
    forall a: ResolvedPackage, b: ResolvedPackage, c: ResolvedPackage | KeyLeq(a, b) && KeyLeq(b, c)
      ensures KeyLeq(a, c)
    {
      LexicographicIsTransitive(a.repository, a.filename, b.repository, b.filename, c.repository, c.filename);
    }
  }

  lemma LexicographicIsTransitive(a0: string, a1: string, b0: string, b1: string, c0: string, c1: string)
    requires if a0 == b0 then TextLeq(a1, b1) else TextLeq(a0, b0)
    requires if b0 == c0 then TextLeq(b1, c1) else TextLeq(b0, c0)
    ensures if a0 == c0 then TextLeq(a1, c1) else TextLeq(a0, c0)
  {
    if a0 == b0 == c0 {
      TextLeqIsTransitive(a1, b1, c1);
    } else if a0 != b0 && b0 != c0 {
      TextLeqIsTransitive(a0, b0, c0);
      if a0 == c0 {
        TextLeqIsAntisymmetric(a0, b0);
      }
    }
  }

  /** The order takes two packages for equal exactly when repository and filename are the same. */
  lemma TiedExactlyWhen(a: ResolvedPackage, b: ResolvedPackage)
    ensures Equivalent(a, b, KeyLeq) <==> a.repository == b.repository && a.filename == b.filename
  {
    if Equivalent(a, b, KeyLeq) {
      if a.repository == b.repository {
        TextLeqIsAntisymmetric(a.filename, b.filename);
      } else {
        TextLeqIsAntisymmetric(a.repository, b.repository);
      }
    }
    TextLeqIsTotal(a.filename, b.filename);
  }

  predicate DistinctKeys(packages: seq<ResolvedPackage>) {
    forall a, b | a in packages && b in packages && a.repository == b.repository && a.filename == b.filename :: a == b
  }

  lemma DistinctKeysDistinguish(packages: seq<ResolvedPackage>)
    ensures DistinctKeys(packages) <==> Distinguishes(packages, KeyLeq)
  {
    hide KeyLeq;
    forall a, b ensures Equivalent(a, b, KeyLeq) <==> a.repository == b.repository && a.filename == b.filename {
      TiedExactlyWhen(a, b);
    }
    if DistinctKeys(packages) {
      forall a, b | a in packages && b in packages && KeyLeq(a, b) && KeyLeq(b, a) ensures a == b {
        assert Equivalent(a, b, KeyLeq);
      }
    }
    if Distinguishes(packages, KeyLeq) {
      forall a, b | a in packages && b in packages && a.repository == b.repository && a.filename == b.filename
        ensures a == b
      {
        assert Equivalent(a, b, KeyLeq);
      }
    }
  }

  // ---------------------------------------------------------------- rows in any order

  predicate Blank(row: Row) {
    row == [""]
  }

  /** Every non-empty row resolves, and no two of them to one name. */
  predicate RowsAgree(catalogue: Catalogue, rows: seq<Row>) {
    && (forall i | 0 <= i < |rows| && !Blank(rows[i]) :: ResolveRow(catalogue, rows[i]).Success?)
    && (forall i, j | 0 <= i < j < |rows| && !Blank(rows[i]) && !Blank(rows[j]) ::
          ResolveRow(catalogue, rows[i]).value.name != ResolveRow(catalogue, rows[j]).value.name)
  }

  predicate Resolves(catalogue: Catalogue, rows: seq<Row>, package: ResolvedPackage) {
    exists i :: 0 <= i < |rows| && !Blank(rows[i]) && ResolveRow(catalogue, rows[i]) == Success(package)
  }

  /** The resolved packages, row by row. */
  function Images(catalogue: Catalogue, rows: seq<Row>): seq<ResolvedPackage> {
    if rows == [] then []
    else
      var row := rows[|rows| - 1];
      Images(catalogue, rows[..|rows| - 1])
      + if !Blank(row) && ResolveRow(catalogue, row).Success? then [ResolveRow(catalogue, row).value] else []
  }

  /** A row resolves exactly when its fields are those of the entry it names, its size as a numeral. */
  lemma RowResolvesExactlyWhen(catalogue: Catalogue, row: Row)
    ensures ResolveRow(catalogue, row).Success?
            <==> && |row| == 7 && (row[0], row[1]) in catalogue
                 && var record := catalogue[(row[0], row[1])];
                    && row[2] == record.version && row[3] == record.architecture && row[4] == record.filename
                    && record.compressedSize >= 0 && IsNumeral(row[5], record.compressedSize)
                    && row[6] == BASE_URI + "/" + row[0] + "/os/x86_64/" + record.filename
  {
    hide Decimal, IsNumeral;
    if |row| == 7 && (row[0], row[1]) in catalogue && catalogue[(row[0], row[1])].compressedSize >= 0 {
      NumeralsAreRead(row[5], catalogue[(row[0], row[1])].compressedSize);
    }
  }

  lemma {:induction false} ImagesAreResolved(catalogue: Catalogue, rows: seq<Row>)
    ensures forall package :: package in Images(catalogue, rows) <==> Resolves(catalogue, rows, package)
  {
    hide ResolveRow;
    if rows == [] {
    } else {
      var front, row := rows[..|rows| - 1], rows[|rows| - 1];
      ImagesAreResolved(catalogue, front);
      forall package ensures package in Images(catalogue, rows) <==> Resolves(catalogue, rows, package) {
        if Resolves(catalogue, front, package) {
          var i :| 0 <= i < |front| && !Blank(front[i]) && ResolveRow(catalogue, front[i]) == Success(package);
          assert rows[i] == front[i];
        }
        if Resolves(catalogue, rows, package) {
          var i :| 0 <= i < |rows| && !Blank(rows[i]) && ResolveRow(catalogue, rows[i]) == Success(package);
          assert i < |front| ==> front[i] == rows[i];
        }
      }
    }
  }

  /** The set of names the loop keeps is what decides about the next row. */
  lemma NameIsTaken(catalogue: Catalogue, rows: seq<Row>, name: string)
    requires RowsAgree(catalogue, rows)
    ensures name in Names(Images(catalogue, rows))
            <==> exists i :: 0 <= i < |rows| && !Blank(rows[i]) && ResolveRow(catalogue, rows[i]).value.name == name
  {
    hide ResolveRow;
    ImagesAreResolved(catalogue, rows);
    if name in Names(Images(catalogue, rows)) {
      var package :| package in Images(catalogue, rows) && package.name == name;
      assert Resolves(catalogue, rows, package);
      var i :| 0 <= i < |rows| && !Blank(rows[i]) && ResolveRow(catalogue, rows[i]) == Success(package);
    }
    forall i | 0 <= i < |rows| && !Blank(rows[i]) && ResolveRow(catalogue, rows[i]).value.name == name
      ensures name in Names(Images(catalogue, rows))
    {
      assert Resolves(catalogue, rows, ResolveRow(catalogue, rows[i]).value);
    }
  }

  lemma LastRowAgrees(catalogue: Catalogue, rows: seq<Row>)
    requires rows != [] && RowsAgree(catalogue, rows[..|rows| - 1])
    ensures var row := rows[|rows| - 1];
            RowsAgree(catalogue, rows)
            <==> || Blank(row)
                 || (&& ResolveRow(catalogue, row).Success?
                     && ResolveRow(catalogue, row).value.name !in Names(Images(catalogue, rows[..|rows| - 1])))
  {
    hide ResolveRow, Names, Images;
    var front, row := rows[..|rows| - 1], rows[|rows| - 1];
    assert forall i | 0 <= i < |front| :: front[i] == rows[i];
    if !Blank(row) && ResolveRow(catalogue, row).Success? {
      NameIsTaken(catalogue, front, ResolveRow(catalogue, row).value.name);
    }
  }

  /** The loop over the rows succeeds exactly when the rows agree, and then returns their images. */
  lemma {:induction false} ResolveExactlyWhen(catalogue: Catalogue, rows: seq<Row>)
    ensures Resolve(catalogue, rows) == if RowsAgree(catalogue, rows) then Success(Images(catalogue, rows)) else Failure
  {
    if rows == [] {
    } else {
      ResolveExactlyWhen(catalogue, rows[..|rows| - 1]);
      FrontAgrees(catalogue, rows);
      if RowsAgree(catalogue, rows[..|rows| - 1]) {
        LastRowAgrees(catalogue, rows);
      }
      assert Images(catalogue, rows[..|rows| - 1]) + [] == Images(catalogue, rows[..|rows| - 1]);
      hide ResolveRow, RowsAgree, Names;
    }
  }

  lemma FrontAgrees(catalogue: Catalogue, rows: seq<Row>)
    requires rows != []
    ensures RowsAgree(catalogue, rows) ==> RowsAgree(catalogue, rows[..|rows| - 1])
    ensures Blank(rows[|rows| - 1]) ==> (RowsAgree(catalogue, rows) <==> RowsAgree(catalogue, rows[..|rows| - 1]))
  {
    hide ResolveRow;
    assert forall i | 0 <= i < |rows| - 1 :: rows[..|rows| - 1][i] == rows[i];
  }

  lemma RowsAgreeInAnyOrder(catalogue: Catalogue, rows: seq<Row>, others: seq<Row>)
    requires multiset(rows) == multiset(others) && RowsAgree(catalogue, rows)
    ensures RowsAgree(catalogue, others)
  {
    hide ResolveRow;
    SameElements(rows, others);
    forall i | 0 <= i < |others| && !Blank(others[i]) ensures ResolveRow(catalogue, others[i]).Success? {
      assert others[i] in rows;
    }
    forall i, j | 0 <= i < j < |others| && !Blank(others[i]) && !Blank(others[j])
      ensures ResolveRow(catalogue, others[i]).value.name != ResolveRow(catalogue, others[j]).value.name
    {
      var p, q := PairSurvives(others, rows, i, j);
      assert p < q || q < p;
    }
  }

  lemma ImagesInAnyOrder(catalogue: Catalogue, rows: seq<Row>, others: seq<Row>)
    requires multiset(rows) == multiset(others) && RowsAgree(catalogue, rows) && RowsAgree(catalogue, others)
    ensures multiset(Images(catalogue, rows)) == multiset(Images(catalogue, others))
  {
    hide ResolveRow, RowsAgree;
    SameElements(rows, others);
    ImagesAreResolved(catalogue, rows);
    ImagesAreResolved(catalogue, others);
    forall package ensures Resolves(catalogue, rows, package) <==> Resolves(catalogue, others, package) {
      if Resolves(catalogue, rows, package) {
        var i :| 0 <= i < |rows| && !Blank(rows[i]) && ResolveRow(catalogue, rows[i]) == Success(package);
        assert rows[i] in others;
      }
      if Resolves(catalogue, others, package) {
        var i :| 0 <= i < |others| && !Blank(others[i]) && ResolveRow(catalogue, others[i]) == Success(package);
        assert others[i] in rows;
      }
    }
    NamesAreDistinct(catalogue, rows);
    NamesAreDistinct(catalogue, others);
    DuplicateFreePermutation(Images(catalogue, rows), Images(catalogue, others));
  }

  lemma {:induction false} NamesAreDistinct(catalogue: Catalogue, rows: seq<Row>)
    requires RowsAgree(catalogue, rows)
    ensures AllDistinct(PackageNames(Images(catalogue, rows))) && NoDuplicates(Images(catalogue, rows))
  {
    hide ResolveRow;
    if rows == [] {
    } else {
      var front, row := rows[..|rows| - 1], rows[|rows| - 1];
      FrontAgrees(catalogue, rows);
      NamesAreDistinct(catalogue, front);
      ImagesAreResolved(catalogue, front);
      forall package | package in Images(catalogue, front) && !Blank(row)
        ensures package.name != ResolveRow(catalogue, row).value.name
      {
        assert Resolves(catalogue, front, package);
        var i :| 0 <= i < |front| && !Blank(front[i]) && ResolveRow(catalogue, front[i]) == Success(package);
        assert rows[i] == front[i];
      }
      if !Blank(row) {
        OneMoreName(Images(catalogue, front), ResolveRow(catalogue, row).value);
      } else {
        assert Images(catalogue, front) + [] == Images(catalogue, front);
      }
    }
  }

  lemma OneMoreName(packages: seq<ResolvedPackage>, package: ResolvedPackage)
    requires AllDistinct(PackageNames(packages)) && forall p | p in packages :: p.name != package.name
    ensures AllDistinct(PackageNames(packages + [package])) && NoDuplicates(packages + [package])
  {
    var all := packages + [package];
    forall i, j | 0 <= i < j < |all| ensures PackageNames(all)[i] != PackageNames(all)[j] && all[i] != all[j] {
      if j < |packages| {
        assert PackageNames(packages)[i] != PackageNames(packages)[j];
      } else {
        assert all[i] in packages;
      }
    }
  }

  lemma {:induction false} ImagesOfConcat(catalogue: Catalogue, rows: seq<Row>, others: seq<Row>)
    ensures Images(catalogue, rows + others) == Images(catalogue, rows) + Images(catalogue, others)
    decreases |others|
  {
    hide ResolveRow;
    if others == [] {
      assert rows + others == rows;
    } else {
      assert (rows + others)[..|rows + others| - 1] == rows + others[..|others| - 1];
      ImagesOfConcat(catalogue, rows, others[..|others| - 1]);
    }
  }

  lemma {:induction false} ImagesOfReverse(catalogue: Catalogue, rows: seq<Row>)
    ensures Images(catalogue, Reverse(rows)) == Reverse(Images(catalogue, rows))
  {
    hide ResolveRow;
    if rows == [] {
    } else {
      var front, row := rows[..|rows| - 1], rows[|rows| - 1];
      ImagesOfReverse(catalogue, front);
      ImagesOfConcat(catalogue, [row], Reverse(front));
      assert [row][..0] == [];
      var own := Images(catalogue, [row]);
      assert Images(catalogue, rows) == Images(catalogue, front) + own;
      ReverseOfConcat(Images(catalogue, front), own);
      assert own != [] ==> own[..0] == [];
      assert Reverse(own) == own;
    }
  }

  // ---------------------------------------------------------------- totals and names after sorting

  lemma TotalOfSort(packages: seq<ResolvedPackage>)
    ensures Total(Sort(packages, KeyLeq)) == Total(packages)
  {
    KeyLeqIsTotalPreorder();
    SortOrders(packages, KeyLeq);
    hide TotalPreorder, Ordered, Sort, Total;
    TotalInAnyOrder(packages, Sort(packages, KeyLeq));
  }

  lemma {:induction false} TotalInAnyOrder(packages: seq<ResolvedPackage>, others: seq<ResolvedPackage>)
    requires multiset(packages) == multiset(others)
    ensures Total(packages) == Total(others)
    decreases |packages|
  {
    SameElements(packages, others);
    if packages == [] {
    } else {
      hide Without;
      var n := |packages| - 1;
      assert packages[n] in others;
      var k :| 0 <= k < |others| && others[k] == packages[n];
      TotalWithout(packages, n);
      TotalWithout(others, k);
      WithoutOne(packages, n);
      WithoutOne(others, k);
      TotalInAnyOrder(Without(packages, n), Without(others, k));
    }
  }

  lemma TotalWithout(packages: seq<ResolvedPackage>, k: nat)
    requires k < |packages|
    ensures Total(packages) == Total(Without(packages, k)) + packages[k].compressedSize
  {
    hide Total;
    OneMoreTotal(packages[..k], packages[k]);
    TotalOfConcat(packages[..k] + [packages[k]], packages[k + 1..]);
    TotalOfConcat(packages[..k], packages[k + 1..]);
    PutBack(packages, k);
  }

  lemma OneMoreTotal(packages: seq<ResolvedPackage>, package: ResolvedPackage)
    ensures Total(packages + [package]) == Total(packages) + package.compressedSize
  {
    assert (packages + [package])[..|packages|] == packages;
  }

  lemma {:induction false} TotalOfConcat(packages: seq<ResolvedPackage>, others: seq<ResolvedPackage>)
    ensures Total(packages + others) == Total(packages) + Total(others)
    decreases |others|
  {
    if others == [] {
      assert packages + others == packages;
    } else {
      assert (packages + others)[..|packages + others| - 1] == packages + others[..|others| - 1];
      TotalOfConcat(packages, others[..|others| - 1]);
    }
  }

  // ---------------------------------------------------------------- databases in any order

  predicate DistinctPackages(packages: seq<RepositoryPackage>) {
    forall i, j | 0 <= i < j < |packages| :: Key(packages[i]) != Key(packages[j])
  }

  predicate Catalogues(catalogue: Catalogue, packages: seq<RepositoryPackage>) {
    && (forall key | key in catalogue :: catalogue[key] in packages && Key(catalogue[key]) == key)
    && (forall package | package in packages :: Key(package) in catalogue && catalogue[Key(package)] == package)
  }

  lemma {:induction false} PackagesExactlyWhen(packages: seq<RepositoryPackage>)
    ensures AddPackages(map[], packages).Success? <==> DistinctPackages(packages)
    ensures AddPackages(map[], packages).Success? ==> Catalogues(AddPackages(map[], packages).value, packages)
  {
    if packages == [] {
    } else {
      var front, last := packages[..|packages| - 1], packages[|packages| - 1];
      PackagesExactlyWhen(front);
      assert packages == front + [last];
      if DistinctPackages(front) {
        var before := AddPackages(map[], front).value;
        if Key(last) in before {
          assert before[Key(last)] in front;
        } else {
          assert forall package | package in front :: Key(package) != Key(last);
        }
      }
    }
  }

  lemma CataloguesAreEqual(a: Catalogue, b: Catalogue, packages: seq<RepositoryPackage>, others: seq<RepositoryPackage>)
    requires Catalogues(a, packages) && Catalogues(b, others)
    requires forall package :: package in packages <==> package in others
    ensures a == b
  {
    forall key ensures key in a <==> key in b {
      if key in a {
        assert a[key] in others;
      }
      if key in b {
        assert b[key] in packages;
      }
    }
    forall key | key in a ensures a[key] == b[key] {
      assert a[key] in others;
    }
  }

  lemma PackagesInAnyOrder(packages: seq<RepositoryPackage>, others: seq<RepositoryPackage>)
    requires multiset(packages) == multiset(others)
    ensures AddPackages(map[], packages) == AddPackages(map[], others)
  {
    PackagesExactlyWhen(packages);
    PackagesExactlyWhen(others);
    hide AddPackages;
    SameElements(packages, others);
    if DistinctPackages(packages) {
      DistinctInAnyOrder(packages, others);
      CataloguesAreEqual(AddPackages(map[], packages).value, AddPackages(map[], others).value, packages, others);
    }
    if DistinctPackages(others) {
      DistinctInAnyOrder(others, packages);
    }
  }

  lemma DistinctInAnyOrder(packages: seq<RepositoryPackage>, others: seq<RepositoryPackage>)
    requires multiset(packages) == multiset(others) && DistinctPackages(packages)
    ensures DistinctPackages(others)
  {
    forall i, j | 0 <= i < j < |others| ensures Key(others[i]) != Key(others[j]) {
      var p, q := PairSurvives(others, packages, i, j);
      assert p < q || q < p;
    }
  }

  lemma {:induction false} AddPackagesTwice(catalogue: Catalogue, first: seq<RepositoryPackage>,
                                            second: seq<RepositoryPackage>)
    ensures AddPackages(catalogue, first + second)
            == if AddPackages(catalogue, first).Failure? then Failure
               else AddPackages(AddPackages(catalogue, first).value, second)
    decreases |second|
  {
    if second == [] {
      assert first + second == first;
    } else {
      assert (first + second)[..|first + second| - 1] == first + second[..|second| - 1];
      AddPackagesTwice(catalogue, first, second[..|second| - 1]);
    }
  }

  lemma AddTwoDatabases(databases: seq<RepositoryDatabase>)
    requires CoreAndExtra(databases)
    ensures AddDatabases(databases) == AddPackages(map[], databases[0].packages + databases[1].packages)
  {
    var first := databases[..1];
    assert first[..0] == [] && databases[..1] == first;
    assert AddDatabases([]) == Success(map[]);
    assert AddDatabases(first) == AddPackages(map[], databases[0].packages);
    AddPackagesTwice(map[], databases[0].packages, databases[1].packages);
  }

  /** Two databases are either in the same order or exchanged. */
  lemma DatabasesInAnyOrder(databases: seq<RepositoryDatabase>, others: seq<RepositoryDatabase>)
    requires multiset(databases) == multiset(others) && CoreAndExtra(databases)
    ensures CoreAndExtra(others) && AddDatabases(databases) == AddDatabases(others)
    ensures Sort(Digests(databases), PairLeq) == Sort(Digests(others), PairLeq)
  {
    hide Sort, AddDatabases;
    SameElements(databases, others);
    assert others[0] in databases && others[1] in databases;
    var p, q := PairSurvives(others, databases, 0, 1);
    if p == 1 {
      var core, extra := databases[0].packages, databases[1].packages;
      assert multiset(core + extra) == multiset(extra + core);
      AddTwoDatabases(databases);
      AddTwoDatabases(others);
      PackagesInAnyOrder(core + extra, extra + core);
      DigestsSort(databases);
      DigestsSort(others);
    } else {
      assert databases == others;
    }
  }

  /** The sorted digests: core first. */
  lemma DigestsSort(databases: seq<RepositoryDatabase>)
    requires CoreAndExtra(databases)
    ensures var core := if databases[0].repository == "core" then 0 else 1;
            Sort(Digests(databases), PairLeq)
            == [("core", databases[core].fileSha256), ("extra", databases[1 - core].fileSha256)]
  {
    var a, b := Digests(databases)[0], Digests(databases)[1];
    assert Digests(databases) == [a, b];
    SortTwo(a, b);
    assert "core"[0] < "extra"[0];
    assert TextLeq("core", "extra") && !TextLeq("extra", "core");
  }

  lemma SortTwo(a: (string, string), b: (string, string))
    ensures Sort([a, b], PairLeq) == if PairLeq(a, b) then [a, b] else [b, a]
  {
    hide PairLeq;
    assert [a, b][..1] == [a] && [a][..0] == [];
    assert Sort([a], PairLeq) == Insert([], a, PairLeq);
    assert Insert([a], b, PairLeq) == if PairLeq(a, b) then [a] + [b] else Insert([], b, PairLeq) + [a];
  }

  // ---------------------------------------------------------------- the manifest is canonical

  lemma NamesInAnyOrder(packages: seq<ResolvedPackage>, others: seq<ResolvedPackage>)
    requires multiset(packages) == multiset(others)
    ensures Names(packages) == Names(others) && |packages| == |others|
  {
    SameElements(packages, others);
  }

  /** Filenames are distinct within each repository. */
  predicate DistinctFilenames(packages: seq<RepositoryPackage>) {
    forall p, q | p in packages && q in packages && p.repository == q.repository && p.filename == q.filename ::
      p.name == q.name
  }

  /** What is resolved comes from the catalogue. */
  lemma ImagesComeFromTheCatalogue(catalogue: Catalogue, rows: seq<Row>, package: ResolvedPackage)
    requires package in Images(catalogue, rows)
    ensures (package.repository, package.name) in catalogue
    ensures var record := catalogue[(package.repository, package.name)];
            && package.version == record.version && package.architecture == record.architecture
            && package.filename == record.filename && package.compressedSize == record.compressedSize
            && package.compressedSize >= 0
            && package.sha256 == record.sha256 && package.databaseSignature == record.pgpSignature
            && package.packageUri == PackageUri(package.repository, package.filename)
            && package.signatureUri == package.packageUri + ".sig"
  {
    ImagesAreResolved(catalogue, rows);
    assert Resolves(catalogue, rows, package);
  }

  function AllPackages(databases: seq<RepositoryDatabase>): seq<RepositoryPackage> {
    if databases == [] then [] else AllPackages(databases[..|databases| - 1]) + databases[|databases| - 1].packages
  }

  lemma {:induction false} CatalogueHoldsOnlyPackages(databases: seq<RepositoryDatabase>)
    requires AddDatabases(databases).Success?
    ensures Catalogues(AddDatabases(databases).value, AllPackages(databases))
    ensures AddDatabases(databases) == AddPackages(map[], AllPackages(databases))
  {
    if databases != [] {
      var front, last := databases[..|databases| - 1], databases[|databases| - 1];
      CatalogueHoldsOnlyPackages(front);
      AddPackagesTwice(map[], AllPackages(front), last.packages);
    }
    PackagesExactlyWhen(AllPackages(databases));
  }

  /** Within the databases' filenames being distinct, no two resolved packages tie. */
  lemma NoTies(databases: seq<RepositoryDatabase>, rows: seq<Row>)
    requires AddDatabases(databases).Success? && DistinctFilenames(AllPackages(databases))
    ensures DistinctKeys(Images(AddDatabases(databases).value, rows))
  {
    hide Images, AddDatabases, AllPackages, ResolveRow;
    var catalogue := AddDatabases(databases).value;
    CatalogueHoldsOnlyPackages(databases);
    forall a, b | a in Images(catalogue, rows) && b in Images(catalogue, rows)
                  && a.repository == b.repository && a.filename == b.filename
      ensures a == b
    {
      ImagesComeFromTheCatalogue(catalogue, rows, a);
      ImagesComeFromTheCatalogue(catalogue, rows, b);
      var p, q := catalogue[(a.repository, a.name)], catalogue[(b.repository, b.name)];
      assert p in AllPackages(databases) && q in AllPackages(databases);
    }
  }

  /** The part of the build after the catalogue. */
  function Finish(resolved: seq<ResolvedPackage>, digests: seq<(string, string)>,
                  planDigest: string): Result<Manifest> {
    if !(0 < |resolved| <= MAX_PACKAGES) || !HasEverySeed(Names(resolved)) || Total(resolved) > MAX_AGGREGATE_BYTES
    then Failure
    else Success(WithDigest(Draft(1, planDigest, digests, BASE_PACKAGES, Sort(resolved, KeyLeq), Total(resolved))))
  }

  lemma BuildInParts(rows: seq<Row>, outputBytes: nat, databases: seq<RepositoryDatabase>, planDigest: string)
    ensures Build(rows, outputBytes, databases, planDigest)
            == if outputBytes > OUTPUT_MAX || !IsHexDigest(planDigest) || AddDatabases(databases).Failure?
                  || !CoreAndExtra(databases)
                  || !RowsAgree(AddDatabases(databases).value, rows)
               then Failure
               else Finish(Images(AddDatabases(databases).value, rows), Sort(Digests(databases), PairLeq), planDigest)
  {
    hide RowsAgree, Images, Resolve, Sort, Digests, Names, HasEverySeed, Total, IsHexDigest, CoreAndExtra;
    if AddDatabases(databases).Success? {
      ResolveExactlyWhen(AddDatabases(databases).value, rows);
    }
  }

  /** Without ties, what follows the catalogue does not see the order of what was resolved. */
  lemma FinishInAnyOrder(packages: seq<ResolvedPackage>, others: seq<ResolvedPackage>, digests: seq<(string, string)>,
                         planDigest: string)
    requires multiset(packages) == multiset(others) && DistinctKeys(packages)
    ensures Finish(packages, digests, planDigest) == Finish(others, digests, planDigest)
  {
    KeyLeqIsTotalPreorder();
    DistinctKeysDistinguish(packages);
    hide TotalPreorder, Distinguishes, Names, HasEverySeed, Total, Sort;
    SortForgetsOrder(packages, others, KeyLeq);
    NamesInAnyOrder(packages, others);
    TotalInAnyOrder(packages, others);
  }

  /**
   With distinct filenames in each repository, any order of the rows and of the databases gives the
   same manifest, or fails in both.
   */
  lemma SameManifestInAnyOrder(rows: seq<Row>, others: seq<Row>, outputBytes: nat, databases: seq<RepositoryDatabase>,
                               reordered: seq<RepositoryDatabase>, planDigest: string)
    requires multiset(rows) == multiset(others) && multiset(databases) == multiset(reordered)
    requires DistinctFilenames(AllPackages(databases))
    ensures Build(rows, outputBytes, databases, planDigest) == Build(others, outputBytes, reordered, planDigest)
  {
    BuildInParts(rows, outputBytes, databases, planDigest);
    BuildInParts(others, outputBytes, reordered, planDigest);
    hide Build, RowsAgree, Images, Sort, Digests, Finish, AddDatabases, CoreAndExtra, AllPackages, DistinctFilenames,
         DistinctKeys;
    if CoreAndExtra(reordered) {
      DatabasesInAnyOrder(reordered, databases);
    }
    if CoreAndExtra(databases) {
      DatabasesInAnyOrder(databases, reordered);
      if AddDatabases(databases).Success? {
        var catalogue := AddDatabases(databases).value;
        NoTies(databases, rows);
        if RowsAgree(catalogue, rows) {
          RowsAgreeInAnyOrder(catalogue, rows, others);
          ImagesInAnyOrder(catalogue, rows, others);
          FinishInAnyOrder(Images(catalogue, rows), Images(catalogue, others), Sort(Digests(databases), PairLeq),
                           planDigest);
        }
        if RowsAgree(catalogue, others) {
          RowsAgreeInAnyOrder(catalogue, others, rows);
        }
      }
    }
  }

  ghost predicate OrderDoesNotMatter(rows: seq<Row>, outputBytes: nat, databases: seq<RepositoryDatabase>,
                                     planDigest: string) {
    forall others | multiset(others) == multiset(rows) ::
      Build(others, outputBytes, databases, planDigest) == Build(rows, outputBytes, databases, planDigest)
  }

  /** A manifest is independent of the order of its rows exactly when no two packages tie in the sort. */
  lemma CanonicalExactlyWhen(rows: seq<Row>, outputBytes: nat, databases: seq<RepositoryDatabase>, planDigest: string)
    requires Build(rows, outputBytes, databases, planDigest).Success?
    ensures AddDatabases(databases).Success?
    ensures OrderDoesNotMatter(rows, outputBytes, databases, planDigest)
            <==> DistinctKeys(Images(AddDatabases(databases).value, rows))
  {
    BuildInParts(rows, outputBytes, databases, planDigest);
    hide Build, RowsAgree, Images, Sort, Digests, Finish, AddDatabases, CoreAndExtra, DistinctKeys, Reverse;
    var catalogue := AddDatabases(databases).value;
    if DistinctKeys(Images(catalogue, rows)) {
      forall others | multiset(others) == multiset(rows)
        ensures Build(others, outputBytes, databases, planDigest) == Build(rows, outputBytes, databases, planDigest)
      {
        BuildInParts(others, outputBytes, databases, planDigest);
        RowsAgreeInAnyOrder(catalogue, rows, others);
        ImagesInAnyOrder(catalogue, rows, others);
        FinishInAnyOrder(Images(catalogue, rows), Images(catalogue, others), Sort(Digests(databases), PairLeq),
                         planDigest);
      }
    } else {
      ReverseIsPermutation(rows);
      BuildInParts(Reverse(rows), outputBytes, databases, planDigest);
      RowsAgreeInAnyOrder(catalogue, rows, Reverse(rows));
      ReversedDiffers(catalogue, rows, Sort(Digests(databases), PairLeq), planDigest);
      assert multiset(Reverse(rows)) == multiset(rows);
    }
  }

  lemma ReversedDiffers(catalogue: Catalogue, rows: seq<Row>, digests: seq<(string, string)>, planDigest: string)
    requires RowsAgree(catalogue, rows) && !DistinctKeys(Images(catalogue, rows))
    requires Finish(Images(catalogue, rows), digests, planDigest).Success?
    ensures Finish(Images(catalogue, Reverse(rows)), digests, planDigest)
            != Finish(Images(catalogue, rows), digests, planDigest)
  {
    hide RowsAgree, Images, Sort, KeyLeq, Reverse, Names, Total, HasEverySeed;
    var packages := Images(catalogue, rows);
    var a, b :| a in packages && b in packages && a.repository == b.repository && a.filename == b.filename && a != b;
    TiedExactlyWhen(a, b);
    KeyLeqIsTotalPreorder();
    NamesAreDistinct(catalogue, rows);
    TiesShow(packages, a, b, KeyLeq);
    ImagesOfReverse(catalogue, rows);
  }

  // ---------------------------------------------------------------- the manifest parses

  predicate SoundRecord(package: ResolvedPackage) {
    package.repository in {"core", "extra"} && package.architecture in {"any", "x86_64"} && |package.sha256| == 64
  }

  predicate Pinned(databases: seq<RepositoryDatabase>) {
    forall i | 0 <= i < |databases| ::
      databases[i].fileSha256 == if databases[i].repository == "core" then CORE_DIGEST else EXTRA_DIGEST
  }

  lemma DistinctAfterSort(packages: seq<ResolvedPackage>)
    ensures AllDistinct(PackageNames(Sort(packages, KeyLeq))) <==> AllDistinct(PackageNames(packages))
    ensures AllDistinct(Filenames(Sort(packages, KeyLeq))) <==> AllDistinct(Filenames(packages))
    ensures forall package :: package in Sort(packages, KeyLeq) <==> package in packages
    ensures |Sort(packages, KeyLeq)| == |packages|
  {
    KeyLeqIsTotalPreorder();
    SortOrders(packages, KeyLeq);
    hide TotalPreorder, Sort;
    var sorted := Sort(packages, KeyLeq);
    SameElements(packages, sorted);
    DistinctFieldsInAnyOrder(packages, sorted);
    DistinctFieldsInAnyOrder(sorted, packages);
  }

  lemma DistinctFieldsInAnyOrder(packages: seq<ResolvedPackage>, others: seq<ResolvedPackage>)
    requires multiset(packages) == multiset(others)
    ensures AllDistinct(PackageNames(packages)) ==> AllDistinct(PackageNames(others))
    ensures AllDistinct(Filenames(packages)) ==> AllDistinct(Filenames(others))
  {
    forall i, j | 0 <= i < j < |others|
      ensures AllDistinct(PackageNames(packages)) ==> PackageNames(others)[i] != PackageNames(others)[j]
      ensures AllDistinct(Filenames(packages)) ==> Filenames(others)[i] != Filenames(others)[j]
    {
      var p, q := PairSurvives(others, packages, i, j);
      var first, second := if p < q then p else q, if p < q then q else p;
      assert AllDistinct(PackageNames(packages)) ==> PackageNames(packages)[first] != PackageNames(packages)[second];
      assert AllDistinct(Filenames(packages)) ==> Filenames(packages)[first] != Filenames(packages)[second];
    }
  }

  /**
   A built manifest satisfies every invariant the parser checks exactly when the databases carry the
   pinned digests and sound records, and no filename occurs twice across the repositories.
   */
  lemma ParsesExactlyWhen(rows: seq<Row>, outputBytes: nat, databases: seq<RepositoryDatabase>, planDigest: string)
    requires Build(rows, outputBytes, databases, planDigest).Success?
    ensures AddDatabases(databases).Success?
    ensures var packages := Images(AddDatabases(databases).value, rows);
            Parses(Build(rows, outputBytes, databases, planDigest).value)
            <==> && Pinned(databases) && AllDistinct(Filenames(packages))
                 && forall package | package in packages :: SoundRecord(package)
  {
    BuildInParts(rows, outputBytes, databases, planDigest);
    var packages := Images(AddDatabases(databases).value, rows);
    hide Build, RowsAgree, Images, AddDatabases, Sort, Finish, Parses, AllDistinct, SoundPackage;
    NamesAreDistinct(AddDatabases(databases).value, rows);
    FinishParses(packages, Sort(Digests(databases), PairLeq), planDigest);
    PinnedDigests(databases);
    SoundPackages(AddDatabases(databases).value, rows);
  }

  lemma PinnedDigests(databases: seq<RepositoryDatabase>)
    requires CoreAndExtra(databases)
    ensures Sort(Digests(databases), PairLeq) == [("core", CORE_DIGEST), ("extra", EXTRA_DIGEST)] <==> Pinned(databases)
  {
    DigestsSort(databases);
    hide Sort;
    assert "core" != "extra" by {
      assert "core"[0] != "extra"[0];
    }
  }

  lemma FinishParses(packages: seq<ResolvedPackage>, digests: seq<(string, string)>, planDigest: string)
    requires Finish(packages, digests, planDigest).Success? && AllDistinct(PackageNames(packages))
    ensures Parses(Finish(packages, digests, planDigest).value)
            <==> && digests == [("core", CORE_DIGEST), ("extra", EXTRA_DIGEST)]
                 && AllDistinct(Filenames(packages))
                 && forall package | package in packages :: SoundPackage(package)
  {
    var sorted := Sort(packages, KeyLeq);
    DistinctAfterSort(packages);
    TotalOfSort(packages);
    KeyLeqIsTotalPreorder();
    SortOrders(packages, KeyLeq);
    OrderedSortsToItself(sorted, KeyLeq);
    hide TotalPreorder, Sort, Total, Names, HasEverySeed, AllDistinct, PackageNames, Filenames, SoundPackage, Ordered;
    assert (forall i | 0 <= i < |sorted| :: SoundPackage(sorted[i]))
           <==> forall package | package in sorted :: SoundPackage(package);
  }

  lemma SoundPackages(catalogue: Catalogue, rows: seq<Row>)
    ensures (forall package | package in Images(catalogue, rows) :: SoundPackage(package))
            <==> forall package | package in Images(catalogue, rows) :: SoundRecord(package)
  {
    hide Images;
    forall package | package in Images(catalogue, rows) ensures SoundPackage(package) <==> SoundRecord(package) {
      ImagesComeFromTheCatalogue(catalogue, rows, package);
    }
  }

  /**
   Whatever is built names every fixed seed, lists each name once, sorted by repository and filename and
   each as its catalogue entry has it, and sums their sizes.
   */
  lemma BuiltManifestIsTheClosure(rows: seq<Row>, outputBytes: nat, databases: seq<RepositoryDatabase>,
                                  planDigest: string)
    requires Build(rows, outputBytes, databases, planDigest).Success?
    ensures AddDatabases(databases).Success?
    ensures var draft := Build(rows, outputBytes, databases, planDigest).value.draft;
            && draft.planDigest == planDigest && |planDigest| == 64 && draft.seeds == BASE_PACKAGES
            && (forall i | 0 <= i < |BASE_PACKAGES| ::
                  exists package :: package in draft.packages && package.name == BASE_PACKAGES[i])
            && AllDistinct(PackageNames(draft.packages)) && Ordered(draft.packages, KeyLeq)
            && (forall package | package in draft.packages ::
                  FromCatalogue(AddDatabases(databases).value, package))
            && draft.aggregate == Total(draft.packages) <= 4 * 1024 * 1024 * 1024 && 0 < |draft.packages| <= 512
            && |draft.databaseDigests| == 2
            && draft.databaseDigests[0].0 == "core" && draft.databaseDigests[1].0 == "extra"
  {
    BuildInParts(rows, outputBytes, databases, planDigest);
    var catalogue := AddDatabases(databases).value;
    var packages := Images(catalogue, rows);
    hide Build, RowsAgree, Images, AddDatabases, AllDistinct, FromCatalogue, PackageNames;
    NamesAreDistinct(catalogue, rows);
    DistinctAfterSort(packages);
    TotalOfSort(packages);
    KeyLeqIsTotalPreorder();
    SortOrders(packages, KeyLeq);
    DigestsSort(databases);
    hide TotalPreorder, Ordered, Sort, Total;
    forall package | package in packages ensures FromCatalogue(catalogue, package) {
      ImageIsFromCatalogue(catalogue, rows, package);
    }
  }

  /** The package agrees with the catalogue entry of its repository and name. */
  predicate FromCatalogue(catalogue: Catalogue, package: ResolvedPackage) {
    && (package.repository, package.name) in catalogue
    && var record := catalogue[(package.repository, package.name)];
       && package.version == record.version && package.architecture == record.architecture
       && package.filename == record.filename && package.compressedSize == record.compressedSize
       && package.sha256 == record.sha256 && package.databaseSignature == record.pgpSignature
  }

  lemma ImageIsFromCatalogue(catalogue: Catalogue, rows: seq<Row>, package: ResolvedPackage)
    requires package in Images(catalogue, rows)
    ensures FromCatalogue(catalogue, package)
  {
    hide Images;
    ImagesComeFromTheCatalogue(catalogue, rows, package);
  }
}
