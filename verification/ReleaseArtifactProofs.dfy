/** What an accepted link target and an accepted member list guarantee. */
module ReleaseArtifactProofs {
  import opened Common
  import opened Ordering
  import opened PosixPaths
  import opened ReleaseArtifact

  // ---------------------------------------------------------------- paths

  /** The two last tests of `_validate_path` never decide: its components do. */
  lemma PathIsValidExactlyByItsComponents(tables: TextTables, path: string)
    ensures ValidatePath(tables, path) <==> CanonicalText(tables, path) && AllOrdinary(Split(path))
  {
    hide Split, Normpath;
    if AllOrdinary(Split(path)) {
      NormpathIsIdentityOnOrdinaryPaths(path);
    }
  }

  /** "/../" in the padded path shows up as a ".." component. */
  lemma DotDotTextIsADotDotPart(path: string, i: nat)
    requires OccursAt("/" + path + "/", "/../", i)
    ensures 0 < |Split(("/" + path + "/")[..i])| <= |Split(path)|
    ensures Split(path)[|Split(("/" + path + "/")[..i])| - 1] == ".."
  {
    var padded := "/" + path + "/";
    var before, after := padded[..i], padded[i + 4..];
    assert padded == (before + "/" + "..") + "/" + after by {
      assert padded == before + padded[i..i + 4] + after;
      assert before + "/../" + after == (before + "/" + "..") + "/" + after;
    }
    SplitConcat(before + "/" + "..", after);
    SplitConcat(before, "..");
    SplitOfOnePart("..");
    var parts := Split(padded);
    assert parts == Split(before) + [".."] + Split(after);
    assert padded == "" + "/" + path + "/" + "";
    SplitConcat("" + "/" + path, "");
    SplitConcat("", path);
    SplitOfOnePart("");
    assert parts == [""] + Split(path) + [""];
    assert parts[|Split(before)|] == "..";
  }

  lemma OrdinaryPathDoesNotEscape(path: string)
    requires AllOrdinary(Split(path))
    ensures path != "" && path != "." && path != ".." && !("../" <= path)
    ensures !Contains("/" + path + "/", "/../")
  {
    NormpathIsIdentityOnOrdinaryPaths(path);
    if i: nat :| OccursAt("/" + path + "/", "/../", i) {
      DotDotTextIsADotDotPart(path, i);
    }
    SplitOfOnePart(".");
    SplitOfOnePart("..");
    if "../" <= path {
      assert path == ".." + "/" + path[3..];
      SplitConcat("..", path[3..]);
    }
  }

  // ---------------------------------------------------------------- link targets

  /** Where a link target starts walking: its own directory, or the root when it is absolute. */
  function StartOf(memberPath: string, target: string): seq<string> {
    if target != "" && target[0] == '/' then [] else Split(memberPath)[..|Split(memberPath)| - 1]
  }

  /** `normpath` of a relative path, told by the walk of its components. */
  lemma RelativeNormpath(path: string, at: seq<string>, parts: seq<string>)
    requires path != "" && path[0] != '/'
    requires PushAll([], Split(path), false) == PushAll(at, parts, false)
    requires AllOrdinary(at)
    ensures Walk(at, parts).Some? ==>
              && AllOrdinary(Walk(at, parts).value) && AllNoSlash(Walk(at, parts).value)
              && Normpath(path) == if Walk(at, parts).value == [] then "." else Join(Walk(at, parts).value)
    ensures Walk(at, parts).None? ==> !AllOrdinary(Split(Normpath(path)))
  {
    NormalisationPredictsTheWalk(at, parts);
    SplitPartsHaveNoSlash(path);
    PushedPartsHaveNoSlash([], Split(path), false);
    var stack := PushAll([], Split(path), false);
    assert InitialSlashes(path) == "";
    assert "" + Join(stack) == Join(stack);
    if stack != [] {
      SplitOfJoin(stack);
      assert Walk(at, parts).Some? ==> Ordinary(stack[0]);
      assert Split("") == [""];
    }
  }

  lemma AbsoluteTargetFollowsTheWalk(memberPath: string, target: string)
    requires target != "" && target[0] == '/'
    ensures WalkTellsResolve(memberPath, target)
  {
    hide Normpath, PushAll, Split, Walk;
    WalkIgnoresLeadingSlashes([], target);
    var relative := StripLeading(target);
    if relative == "" {
      EmptyTextResolvesToHere();
    } else {
      RelativeNormpath(relative, [], Split(relative));
    }
  }

  lemma RelativeTargetFollowsTheWalk(memberPath: string, target: string)
    requires AllOrdinary(Split(memberPath)) && target != "" && target[0] != '/'
    ensures WalkTellsResolve(memberPath, target)
  {
    hide Normpath, PushAll, Split, Walk;
    var at := StartOf(memberPath, target);
    DirnameDropsTheLastPart(memberPath);
    PrefixOfOrdinaryIsOrdinary(at, Split(memberPath)[|at|..]);
    assert at + Split(memberPath)[|at|..] == Split(memberPath);
    if at == [] {
      assert "" + target == target;
      RelativeNormpath(target, [], Split(target));
    } else {
      SplitPartsHaveNoSlash(memberPath);
      JoinedTargetPushes(at, target);
      RelativeNormpath(Join(at) + "/" + target, at, Split(target));
    }
  }

  lemma JoinedTargetPushes(at: seq<string>, target: string)
    requires at != [] && AllOrdinary(at) && AllNoSlash(at) && target != "" && target[0] != '/'
    ensures var path := Join(at) + "/" + target;
            && JoinPath(Join(at), target) == path && path[0] != '/'
            && PushAll([], Split(path), false) == PushAll(at, Split(target), false)
  {
    hide Split, PushAll;
    SplitOfJoin(at);
    OrdinaryPathHasNoOuterSlash(Join(at));
    SplitConcat(Join(at), target);
    PushAllAppends([], at, Split(target), false);
    OrdinaryPartsAreAllKept([], at, false);
    assert [] + at == at;
  }

  /** The resolved path, read off the walk. */
  ghost predicate WalkTellsResolve(memberPath: string, target: string) {
    var walk := Walk(StartOf(memberPath, target), Split(target));
    && (walk.Some? ==>
          && AllOrdinary(walk.value) && AllNoSlash(walk.value)
          && Resolve(memberPath, target) == if walk.value == [] then "." else Join(walk.value))
    && (walk.None? ==> !AllOrdinary(Split(Resolve(memberPath, target))))
  }

  lemma EmptyTextResolvesToHere()
    ensures Normpath("") == "." && Walk([], Split("")) == Some([])
  {
  }

  /**
   A link target is accepted exactly when it is canonical text, walking its components from the
   member's directory (from the root when absolute) never leaves the root, the walk ends below the
   root, and the path it ends at is canonical text. That path is what the check resolved.
   */
  lemma LinkTargetIsAcceptedExactlyWhenTheWalkStaysInside(tables: TextTables, memberPath: string, target: string)
    requires ValidatePath(tables, memberPath)
    ensures var walk := Walk(StartOf(memberPath, target), Split(target));
            && (ValidateLinkTarget(tables, memberPath, target)
                <==> CanonicalText(tables, target)
                     && walk.Some? && walk.value != [] && CanonicalText(tables, Join(walk.value)))
            && (ValidateLinkTarget(tables, memberPath, target) ==>
                  Resolve(memberPath, target) == Join(walk.value) && AllOrdinary(walk.value))
  {
    hide Normpath, PushAll, Split, Walk, Resolve, Contains, CanonicalText;
    if CanonicalText(tables, target) {
      CanonicalTextIsNotEmpty(tables, target);
      if target[0] == '/' {
        AbsoluteTargetFollowsTheWalk(memberPath, target);
      } else {
        RelativeTargetFollowsTheWalk(memberPath, target);
      }
      var resolved := Resolve(memberPath, target);
      PathIsValidExactlyByItsComponents(tables, resolved);
      var walk := Walk(StartOf(memberPath, target), Split(target));
      if walk.Some? && walk.value != [] {
        SplitOfJoin(walk.value);
        OrdinaryPathDoesNotEscape(resolved);
      }
    }
  }

  /** Walking the target from the member's directory, or the root, ends at a canonical path below the root. */
  predicate StaysInside(tables: TextTables, memberPath: string, target: string) {
    var walk := Walk(StartOf(memberPath, target), Split(target));
    walk.Some? && walk.value != [] && CanonicalText(tables, Join(walk.value))
  }

  lemma CanonicalTextIsNotEmpty(tables: TextTables, s: string)
    requires CanonicalText(tables, s)
    ensures s != ""
  {
  }

  // ---------------------------------------------------------------- the declared tree

  lemma {:induction false} LookupFindsAMember(members: seq<ArchiveMember>, path: string) returns (i: nat)
    requires Lookup(members, path).Some?
    ensures i < |members| && members[i] == Lookup(members, path).value && members[i].path == path
  {
    if members[|members| - 1].path == path {
      i := |members| - 1;
    } else {
      i := LookupFindsAMember(members[..|members| - 1], path);
    }
  }

  /** In canonical order, a path that extends another comes after it. */
  lemma ExtensionComesLater(members: seq<ArchiveMember>, i: nat, j: nat, rest: string)
    requires CanonicalOrder(members) && i < |members| && j < |members|
    requires members[j].path == members[i].path + "/" + rest
    ensures i < j
  {
    assert members[j].path == members[i].path + ("/" + rest);
    PrefixComesFirst(members[i].path, "/" + rest);
    if j < i {
      TextLeqIsAntisymmetric(members[i].path, members[j].path);
    }
  }

  /** What `validate_members` asks of the tree: only that each member's own parent is a directory. */
  ghost predicate ParentsDeclared(members: seq<ArchiveMember>) {
    && CanonicalOrder(members)
    && (forall i | 0 <= i < |members| :: AllOrdinary(Split(members[i].path)))
    && (forall i | 0 <= i < |members| && Dirname(members[i].path) != "" ::
          IsDirectory(Lookup(members, Dirname(members[i].path))))
  }

  lemma ValidMembersDeclareParents(tables: TextTables, members: seq<ArchiveMember>)
    requires ValidateMembers(tables, members)
    ensures ParentsDeclared(members)
  {
    hide Split, CanonicalText, Normpath, ValidateLinkTarget, Forbidden, TotalRegularBytes, CanonicalOrder;
    forall i | 0 <= i < |members| ensures AllOrdinary(Split(members[i].path)) {
      assert ValidShape(tables, members[i]);
    }
    forall i | 0 <= i < |members| && Dirname(members[i].path) != ""
      ensures IsDirectory(Lookup(members, Dirname(members[i].path)))
    {
      assert LinkedConsistently(members, members[i]);
    }
  }

  /** A nested path is its directory, a slash and its last part. */
  lemma NestedPathExtendsItsDirectory(path: string)
    requires AllOrdinary(Split(path)) && |Split(path)| > 1
    ensures var parts := Split(path);
            && Dirname(path) == Join(parts[..|parts| - 1]) && Dirname(path) != ""
            && path == Dirname(path) + "/" + parts[|parts| - 1]
            && Split(Dirname(path)) == parts[..|parts| - 1]
  {
    hide Split;
    var parts := Split(path);
    var front, last := parts[..|parts| - 1], parts[|parts| - 1..];
    assert front + last == parts;
    DirnameDropsTheLastPart(path);
    JoinOfSplit(path);
    JoinConcat(front, last);
    SplitPartsHaveNoSlash(path);
    SplitOfJoin(front);
    PrefixOfOrdinaryIsOrdinary(front, last);
    OrdinaryPathHasNoOuterSlash(Join(front));
  }

  /** Every proper ancestor of a member is a declared directory at a strictly smaller index. */
  lemma {:induction false} AncestorsAreDeclared(members: seq<ArchiveMember>, i: nat, k: nat) returns (j: nat)
    requires ParentsDeclared(members) && i < |members| && 0 < k < |Split(members[i].path)|
    ensures j < i && members[j].kind == Directory && members[j].path == Join(Split(members[i].path)[..k])
    decreases |Split(members[i].path)|
  {
    hide Split, Dirname, Lookup, CanonicalOrder;
    var parts := Split(members[i].path);
    NestedPathExtendsItsDirectory(members[i].path);
    assert IsDirectory(Lookup(members, Dirname(members[i].path)));
    var parent := LookupFindsAMember(members, Dirname(members[i].path));
    ExtensionComesLater(members, parent, i, parts[|parts| - 1]);
    if k == |parts| - 1 {
      j := parent;
    } else {
      j := AncestorsAreDeclared(members, parent, k);
      assert parts[..|parts| - 1][..k] == parts[..k];
    }
  }

  /** The first `k` components of member `i`'s path name a directory at a smaller index. */
  ghost predicate AncestorDeclaredBefore(members: seq<ArchiveMember>, i: nat, k: nat)
    requires i < |members| && 0 < k < |Split(members[i].path)|
  {
    exists j :: 0 <= j < i && members[j].kind == Directory && members[j].path == Join(Split(members[i].path)[..k])
  }

  lemma PathIsAnAncestor(path: string, rest: string)
    ensures var parts := Split(path + "/" + rest);
            0 < |Split(path)| < |parts| && Join(parts[..|Split(path)|]) == path
  {
    SplitConcat(path, rest);
    JoinOfSplit(path);
    assert (Split(path) + Split(rest))[..|Split(path)|] == Split(path);
  }

  lemma PathsIdentifyMembers(members: seq<ArchiveMember>, i: nat, j: nat)
    requires CanonicalOrder(members) && i < |members| && j < |members| && members[i].path == members[j].path
    ensures i == j
  {
  }

  lemma HomeHasNoDescendants(rest: string)
    ensures Forbidden("home" + "/" + rest)
  {
    hide Split;
    var path := "home" + "/" + rest;
    assert path == "home/" + rest;
    assert FORBIDDEN_CONTENT_PREFIXES[0] == "home/" && "home/" <= path;
  }

  /**
   In every accepted member list: whatever a member lies beneath is a directory declared before it,
   and it is not `home`; all proper ancestors of a member are declared; every hardlink's target is a
   regular member; and walking any symlink's target stays inside and ends at a canonical path.
   */
  lemma AcceptedTreeIsClosed(tables: TextTables, members: seq<ArchiveMember>)
    requires ValidateMembers(tables, members)
    ensures forall i, j, rest | 0 <= i < |members| && 0 <= j < |members|
                                && members[j].path == members[i].path + "/" + rest ::
              i < j && members[i].kind == Directory && members[i].path != "home"
    ensures forall i, k: nat | 0 <= i < |members| && 0 < k < |Split(members[i].path)| ::
              AncestorDeclaredBefore(members, i, k)
    ensures forall i | 0 <= i < |members| && members[i].kind == Hardlink ::
              && members[i].linkTarget.Some?
              && exists j :: 0 <= j < |members| && members[j].kind == Regular
                             && members[j].path == members[i].linkTarget.value
    ensures forall i | 0 <= i < |members| && members[i].kind == Symlink ::
              && members[i].linkTarget.Some?
              && StaysInside(tables, members[i].path, members[i].linkTarget.value)
  {
    hide Split, Dirname, Lookup, CanonicalOrder, CanonicalText, Normpath, ValidateLinkTarget, Forbidden,
         TotalRegularBytes;
    ValidMembersDeclareParents(tables, members);
    forall i, k: nat | 0 <= i < |members| && 0 < k < |Split(members[i].path)|
      ensures AncestorDeclaredBefore(members, i, k)
    {
      var j := AncestorsAreDeclared(members, i, k);
    }
    forall i, j, rest | 0 <= i < |members| && 0 <= j < |members| && members[j].path == members[i].path + "/" + rest
      ensures i < j && members[i].kind == Directory && members[i].path != "home"
    {
      PathIsAnAncestor(members[i].path, rest);
      var a := AncestorsAreDeclared(members, j, |Split(members[i].path)|);
      PathsIdentifyMembers(members, a, i);
      HomeHasNoDescendants(rest);
      assert !Forbidden(members[j].path);
    }
    forall i | 0 <= i < |members| && members[i].kind == Hardlink
      ensures members[i].linkTarget.Some?
      ensures exists j :: 0 <= j < |members| && members[j].kind == Regular
                          && members[j].path == members[i].linkTarget.value
    {
      assert ValidShape(tables, members[i]) && LinkedConsistently(members, members[i]);
      var j := LookupFindsAMember(members, members[i].linkTarget.value);
    }
    forall i | 0 <= i < |members| && members[i].kind == Symlink
      ensures members[i].linkTarget.Some? && StaysInside(tables, members[i].path, members[i].linkTarget.value)
    {
      assert ValidShape(tables, members[i]);
      LinkTargetIsAcceptedExactlyWhenTheWalkStaysInside(tables, members[i].path, members[i].linkTarget.value);
    }
  }

  // ---------------------------------------------------------------- what an accepted member may be

  ghost predicate Beneath(path: string, directory: string) {
    exists rest: string :: path == directory + "/" + rest
  }

  predicate DeclaredDirectory(members: seq<ArchiveMember>, directory: string) {
    exists i :: 0 <= i < |members| && members[i].path == directory && members[i].kind == Directory
  }

  /** Owner, group and other bits, and the sticky bit only on a directory: no set-user and no set-group bit. */
  lemma ModesAreUnprivileged(tables: TextTables, m: ArchiveMember)
    requires ValidShape(tables, m)
    ensures 0 <= m.mode < 0x400 && (m.kind != Directory ==> m.mode < 0x200)
    ensures 0 <= m.uid <= 65535 && 0 <= m.gid <= 65535
  {
    hide ValidatePath, ValidateLinkTarget;
  }

  lemma {:induction false} TotalOfOneMore(members: seq<ArchiveMember>, m: ArchiveMember)
    ensures TotalRegularBytes(members + [m]) == TotalRegularBytes(members) + if m.kind == Regular then m.size else 0
    ensures TotalRegularBytes([]) == 0
  {
    assert (members + [m])[..|members|] == members;
  }

  lemma BeneathIsForbidden(path: string, directory: string)
    requires Beneath(path, directory)
    requires directory in {"home", "root", "run", "tmp", "var/tmp", "var/lib/apx",
                           "etc/pacman.d/gnupg/private-keys-v1.d"}
    ensures Forbidden(path)
  {
    hide Split;
    var rest: string :| path == directory + "/" + rest;
    var prefix := directory + "/";
    assert prefix <= path;
    assert "home" + "/" == "home/" && "root" + "/" == "root/" && "run" + "/" == "run/" && "tmp" + "/" == "tmp/";
    assert "var/tmp" + "/" == "var/tmp/" && "var/lib/apx" + "/" == "var/lib/apx/";
    assert "etc/pacman.d/gnupg/private-keys-v1.d" + "/" == "etc/pacman.d/gnupg/private-keys-v1.d/";
    assert prefix in FORBIDDEN_CONTENT_PREFIXES;
    var i :| 0 <= i < |FORBIDDEN_CONTENT_PREFIXES| && FORBIDDEN_CONTENT_PREFIXES[i] == prefix;
  }

  /**
   In every accepted list: modes carry no privilege, only regular members have content, nothing lies
   beneath the mutable directories, no identity file and no credential or cache component occurs, and
   the four root directories are declared.
   */
  lemma AcceptedMembersAreClean(tables: TextTables, members: seq<ArchiveMember>)
    requires ValidateMembers(tables, members)
    ensures forall i | 0 <= i < |members| ::
              var m := members[i];
              && 0 <= m.mode < 0x400 && (m.kind != Directory ==> m.mode < 0x200)
              && m.kind in {Directory, Regular, Symlink, Hardlink}
              && 0 <= m.size && (m.kind != Regular ==> m.size == 0 && m.contentSha256.None?)
              && (m.kind == Regular ==> m.contentSha256.Some? && WellFormed(m.contentSha256.value))
              && (m.linkTarget.Some? <==> m.kind in {Symlink, Hardlink})
              && tables.isNfc(m.path) && (forall k | 0 <= k < |m.path| :: tables.isPrintable(m.path[k]))
              && 1 <= |m.path| <= Utf8Length(m.path) <= 4096 && m.path[0] != '/'
    ensures forall i, directory | 0 <= i < |members|
                                  && directory in {"home", "root", "run", "tmp", "var/tmp", "var/lib/apx",
                                                   "etc/pacman.d/gnupg/private-keys-v1.d"} ::
              !Beneath(members[i].path, directory)
    ensures forall i | 0 <= i < |members| ::
              && members[i].path !in {"etc/hostname", "etc/machine-id", "var/lib/dbus/machine-id",
                                      "var/lib/systemd/random-seed"}
              && forall part | part in {".cache", ".codex", ".git", ".gnupg", ".ssh"} :: part !in Split(members[i].path)
    ensures forall directory | directory in {"etc", "home", "usr", "var"} ::
              DeclaredDirectory(members, directory)
    ensures TotalRegularBytes(members) <= 16 * 1024 * 1024 * 1024
  {
    hide Split, ValidatePath, ValidateLinkTarget, Forbidden, Lookup, CanonicalOrder, TotalRegularBytes,
         LinkedConsistently;
    forall i | 0 <= i < |members|
      ensures 0 <= members[i].mode < 0x400 && (members[i].kind != Directory ==> members[i].mode < 0x200)
    {
      ModesAreUnprivileged(tables, members[i]);
    }
    forall i | 0 <= i < |members|
      ensures var path := members[i].path;
              && tables.isNfc(path) && (forall k | 0 <= k < |path| :: tables.isPrintable(path[k]))
              && 1 <= |path| <= Utf8Length(path) <= 4096 && path[0] != '/'
    {
      PathsAreCanonical(tables, members[i].path);
    }
    forall i, directory | 0 <= i < |members|
                          && directory in {"home", "root", "run", "tmp", "var/tmp", "var/lib/apx",
                                           "etc/pacman.d/gnupg/private-keys-v1.d"}
      ensures !Beneath(members[i].path, directory)
    {
      if Beneath(members[i].path, directory) {
        BeneathIsForbidden(members[i].path, directory);
      }
    }
    forall i | 0 <= i < |members|
      ensures members[i].path !in {"etc/hostname", "etc/machine-id", "var/lib/dbus/machine-id",
                                   "var/lib/systemd/random-seed"}
      ensures forall part | part in {".cache", ".codex", ".git", ".gnupg", ".ssh"} :: part !in Split(members[i].path)
    {
      AllowedPathsAreClean(members[i].path);
    }
    forall directory | directory in {"etc", "home", "usr", "var"}
      ensures DeclaredDirectory(members, directory)
    {
      RequiredIsDeclared(tables, members, directory);
    }
  }

  lemma PathsAreCanonical(tables: TextTables, path: string)
    requires ValidatePath(tables, path)
    ensures tables.isNfc(path) && (forall k | 0 <= k < |path| :: tables.isPrintable(path[k]))
    ensures 1 <= |path| <= Utf8Length(path) <= 4096 && path[0] != '/'
  {
    hide Normpath, Split;
    TextLength(path, "");
  }

  /** The encoding has a byte for every ASCII character, more for every other, and none besides. */
  lemma {:induction false} TextLength(s: string, t: string)
    ensures Utf8Length(s + t) == Utf8Length(s) + Utf8Length(t)
    ensures |s| <= Utf8Length(s) <= 4 * |s|
    ensures Utf8Length(s) == |s| <==> forall i | 0 <= i < |s| :: s[i] as int < 0x80
    ensures |s| == 1 ==>
              (Utf8Length(s) >= 3 <==> s[0] as int >= 0x800) && (Utf8Length(s) == 4 <==> s[0] as int >= 0x1_0000)
    decreases |s|
  {
    if s == "" {
      assert s + t == t;
    } else {
      TextLength(s[1..], t);
      assert (s + t)[1..] == s[1..] + t;
      assert forall i | 0 <= i < |s[1..]| :: s[1..][i] == s[i + 1];
      if forall i | 0 <= i < |s[1..]| :: s[1..][i] as int < 0x80 {
        assert forall i | 1 <= i < |s| :: s[i] == s[1..][i - 1];
      }
    }
  }

  lemma AllowedPathsAreClean(path: string)
    requires !Forbidden(path)
    ensures path !in {"etc/hostname", "etc/machine-id", "var/lib/dbus/machine-id", "var/lib/systemd/random-seed"}
    ensures forall part | part in {".cache", ".codex", ".git", ".gnupg", ".ssh"} :: part !in Split(path)
  {
    hide Split;
    forall part | part in {".cache", ".codex", ".git", ".gnupg", ".ssh"} ensures part !in Split(path) {
      assert part in FORBIDDEN_SEGMENTS;
      assert forall i | 0 <= i < |Split(path)| :: Split(path)[i] != part;
    }
  }

  lemma RequiredIsDeclared(tables: TextTables, members: seq<ArchiveMember>, directory: string)
    requires ValidateMembers(tables, members) && directory in {"etc", "home", "usr", "var"}
    ensures DeclaredDirectory(members, directory)
  {
    hide ValidShape, Forbidden, Lookup, CanonicalOrder, TotalRegularBytes, LinkedConsistently;
    assert directory in REQUIRED_DIRECTORIES;
    var k :| 0 <= k < |REQUIRED_DIRECTORIES| && REQUIRED_DIRECTORIES[k] == directory;
    var i := LookupFindsAMember(members, directory);
  }
}
