/**
 The release member manifest (src/apx_release_artifact.py): path and link checks, the member list,
 the manifest and the comparison of two rebuilds. Unicode tables are a parameter.
 */
module ReleaseArtifact {
  import opened Common
  import opened Ordering
  import opened PosixPaths

  const SCHEMA_VERSION := 1
  const MAX_MEMBERS := 500_000
  const MAX_TOTAL_REGULAR_BYTES := 16 * 1024 * 1024 * 1024
  const MAX_PATH_BYTES := 4096
  const MAX_NUMERIC_ID := 65_535

  /** The verdicts of `unicodedata.normalize("NFC", s) == s` and `str.isprintable`. */
  datatype TextTables = TextTables(isNfc: string -> bool, isPrintable: char -> bool)

  datatype Kind = Directory | Regular | Symlink | Hardlink | OtherKind(name: string)

  datatype Digest =
    | Text(text: string)
    | OfCandidate(candidate: ReleaseCandidate)
    | OfMembers(members: seq<ArchiveMember>)
    | OfManifest(draft: ManifestBody)

  datatype ArchiveMember = ArchiveMember(
    path: string, kind: Kind, size: int, mode: int, uid: int, gid: int,
    contentSha256: Option<Digest>, linkTarget: Option<string>)

  /** The fields the manifest reads, the verdict on the others, and a stand-in for their content. */
  datatype ReleaseCandidate = ReleaseCandidate(
    memberCount: int, rootDigest: Digest, artifactSha256: Digest, otherFieldsValid: bool, otherFields: string)

  /** A manifest without its own digest. */
  datatype ManifestBody = ManifestBody(
    schemaVersion: int, candidateDigest: Digest, artifactSha256: Digest, memberCount: int,
    totalRegularBytes: int, members: seq<ArchiveMember>, rootDigest: Digest)

  datatype Manifest = Manifest(body: ManifestBody, digest: Digest)

  predicate WellFormed(d: Digest) {
    !d.Text? || IsHexDigest(d.text)
  }

  // ---------------------------------------------------------------- paths and link targets

  function Utf8Length(s: string): nat {
    if s == "" then 0
    else
      var code := s[0] as int;
      (if code < 0x80 then 1 else if code < 0x800 then 2 else if code < 0x1_0000 then 3 else 4) + Utf8Length(s[1..])
  }

  predicate CanonicalText(tables: TextTables, s: string) {
    && s != ""
    && tables.isNfc(s)
    && (forall i | 0 <= i < |s| :: tables.isPrintable(s[i]))
    && Utf8Length(s) <= MAX_PATH_BYTES
  }

  /** `_validate_path` does not raise. */
  predicate ValidatePath(tables: TextTables, path: string) {
    && CanonicalText(tables, path)
    && path[0] != '/'
    && AllOrdinary(Split(path))
    && Normpath(path) == path
  }

  predicate OccursAt(text: string, piece: string, i: nat) {
    i + |piece| <= |text| && text[i..i + |piece|] == piece
  }

  predicate Contains(text: string, piece: string) {
    exists i: nat | i <= |text| :: OccursAt(text, piece, i)
  }

  /** The path whose `normpath` a link target is judged by. */
  function Resolve(memberPath: string, target: string): string {
    if target != "" && target[0] == '/' then Normpath(StripLeading(target))
    else Normpath(JoinPath(Dirname(memberPath), target))
  }

  /** `_validate_link_target` does not raise. */
  predicate ValidateLinkTarget(tables: TextTables, memberPath: string, target: string) {
    && CanonicalText(tables, target)
    && var resolved := Resolve(memberPath, target);
       && resolved != "" && resolved != "." && resolved != ".."
       && !("../" <= resolved)
       && !Contains("/" + resolved + "/", "/../")
       && ValidatePath(tables, resolved)
  }

  // ---------------------------------------------------------------- members

  const STICKY := 0x200
  const SET_GID := 0x400
  const SET_UID := 0x800
  const MAX_MODE := 0x3FF

  predicate HasBit(mode: nat, bit: nat)
    requires bit > 0
  {
    (mode / bit) % 2 == 1
  }

  predicate ValidShape(tables: TextTables, m: ArchiveMember) {
    && ValidatePath(tables, m.path)
    && 0 <= m.size <= MAX_TOTAL_REGULAR_BYTES
    && 0 <= m.mode <= MAX_MODE && !HasBit(m.mode, SET_UID) && !HasBit(m.mode, SET_GID)
    && 0 <= m.uid <= MAX_NUMERIC_ID && 0 <= m.gid <= MAX_NUMERIC_ID
    && (match m.kind
       case Regular => m.contentSha256.Some? && WellFormed(m.contentSha256.value) && m.linkTarget.None?
       case Directory => m.size == 0 && m.contentSha256.None? && m.linkTarget.None?
       case Symlink =>
         && m.size == 0 && m.contentSha256.None?
         && m.linkTarget.Some? && ValidateLinkTarget(tables, m.path, m.linkTarget.value)
       case Hardlink =>
         && m.size == 0 && m.contentSha256.None?
         && m.linkTarget.Some? && ValidatePath(tables, m.linkTarget.value)
       case OtherKind(_) => false)
    && (m.kind != Directory ==> !HasBit(m.mode, STICKY))
  }

  const FORBIDDEN_EXACT: seq<string> :=
    ["etc/hostname", "etc/machine-id", "var/lib/dbus/machine-id", "var/lib/systemd/random-seed"]
  const FORBIDDEN_CONTENT_PREFIXES: seq<string> :=
    ["home/", "root/", "run/", "tmp/", "var/tmp/", "var/lib/apx/", "etc/pacman.d/gnupg/private-keys-v1.d/"]
  const FORBIDDEN_SEGMENTS: seq<string> := [".cache", ".codex", ".git", ".gnupg", ".ssh"]
  const REQUIRED_DIRECTORIES: seq<string> := ["etc", "home", "usr", "var"]

  predicate Forbidden(path: string) {
    || path in FORBIDDEN_EXACT
    || (exists i | 0 <= i < |FORBIDDEN_CONTENT_PREFIXES| :: FORBIDDEN_CONTENT_PREFIXES[i] <= path)
    || (exists i | 0 <= i < |Split(path)| :: Split(path)[i] in FORBIDDEN_SEGMENTS)
  }

  predicate CanonicalOrder(members: seq<ArchiveMember>) {
    forall i, j | 0 <= i < j < |members| ::
      TextLeq(members[i].path, members[j].path) && members[i].path != members[j].path
  }

  /** `by_path.get(path)`: the last member stored under the path. */
  function Lookup(members: seq<ArchiveMember>, path: string): Option<ArchiveMember> {
    if members == [] then None
    else if members[|members| - 1].path == path then Some(members[|members| - 1])
    else Lookup(members[..|members| - 1], path)
  }

  function TotalRegularBytes(members: seq<ArchiveMember>): int {
    if members == [] then 0
    else TotalRegularBytes(members[..|members| - 1])
         + if members[|members| - 1].kind == Regular then members[|members| - 1].size else 0
  }

  predicate IsDirectory(member: Option<ArchiveMember>) {
    member.Some? && member.value.kind == Directory
  }

  predicate LinkedConsistently(members: seq<ArchiveMember>, m: ArchiveMember) {
    && (Dirname(m.path) != "" ==> IsDirectory(Lookup(members, Dirname(m.path))))
    && (m.kind == Hardlink && m.linkTarget.Some? ==>
          var target := Lookup(members, m.linkTarget.value);
          target.Some? && target.value.kind == Regular)
  }

  /** `validate_members` does not raise. */
  predicate ValidateMembers(tables: TextTables, members: seq<ArchiveMember>) {
    && 1 <= |members| <= MAX_MEMBERS
    && (forall i | 0 <= i < |members| :: ValidShape(tables, members[i]) && !Forbidden(members[i].path))
    && CanonicalOrder(members)
    && (forall i | 0 <= i < |REQUIRED_DIRECTORIES| :: IsDirectory(Lookup(members, REQUIRED_DIRECTORIES[i])))
    && (forall i | 0 <= i < |members| :: LinkedConsistently(members, members[i]))
    && TotalRegularBytes(members) <= MAX_TOTAL_REGULAR_BYTES
  }

  // ---------------------------------------------------------------- manifests

  predicate ValidCandidate(c: ReleaseCandidate) {
    && c.otherFieldsValid
    && WellFormed(c.rootDigest) && WellFormed(c.artifactSha256)
    && 1 <= c.memberCount <= MAX_MEMBERS
  }

  function BuildManifest(tables: TextTables, c: ReleaseCandidate, members: seq<ArchiveMember>): Result<Manifest> {
    if !ValidateMembers(tables, members) then Failure
    else if !ValidCandidate(c) then Failure
    else if c.memberCount != |members| || c.rootDigest != OfMembers(members) then Failure
    else
      var body := ManifestBody(
        SCHEMA_VERSION, OfCandidate(c), c.artifactSha256, |members|, TotalRegularBytes(members), members,
        OfMembers(members));
      Success(Manifest(body, OfManifest(body)))
  }

  /** `validate_artifact_manifest` does not raise. */
  predicate ValidateManifest(tables: TextTables, m: Manifest) {
    && m.body.schemaVersion == SCHEMA_VERSION
    && WellFormed(m.body.candidateDigest) && WellFormed(m.body.artifactSha256)
    && WellFormed(m.body.rootDigest) && WellFormed(m.digest)
    && ValidateMembers(tables, m.body.members)
    && m.body.memberCount == |m.body.members|
    && m.body.totalRegularBytes == TotalRegularBytes(m.body.members)
    && m.body.rootDigest == OfMembers(m.body.members)
    && m.digest == OfManifest(m.body)
  }

  datatype Issue =
    | MemberManifestsDiffer | NormalizedRootDigestsDiffer | CompressedArtifactDigestsDiffer
    | MemberCountsDiffer | RegularByteTotalsDiffer

  datatype Assessment = Assessment(exactMatch: bool, issues: seq<Issue>, first: Digest, second: Digest)

  /** `compare_rebuilds`: None when either manifest does not validate. */
  method CompareRebuilds(tables: TextTables, first: Manifest, second: Manifest) returns (result: Option<Assessment>)
    ensures result.Some? <==> ValidateManifest(tables, first) && ValidateManifest(tables, second)
    ensures result.Some? ==> result.value.first == first.digest && result.value.second == second.digest
    // Two rebuilds match exactly when members and artifact agree.
    ensures result.Some? ==>
              (result.value.exactMatch
               <==> && first.body.members == second.body.members
                    && first.body.artifactSha256 == second.body.artifactSha256)
    ensures result.Some? ==> (result.value.exactMatch <==> result.value.issues == [])
    // Each issue says what it names.
    ensures result.Some? ==>
              (MemberManifestsDiffer in result.value.issues <==> first.body.members != second.body.members)
    ensures result.Some? ==>
              (CompressedArtifactDigestsDiffer in result.value.issues
               <==> first.body.artifactSha256 != second.body.artifactSha256)
    // The derived issues never stand alone, and the root digest always follows the members.
    ensures result.Some? ==>
              (NormalizedRootDigestsDiffer in result.value.issues <==> MemberManifestsDiffer in result.value.issues)
    ensures result.Some? ==>
              (MemberCountsDiffer in result.value.issues <==> |first.body.members| != |second.body.members|)
    ensures result.Some? ==>
              (RegularByteTotalsDiffer in result.value.issues
               <==> TotalRegularBytes(first.body.members) != TotalRegularBytes(second.body.members))
  {
    hide ValidateMembers;
    if !ValidateManifest(tables, first) || !ValidateManifest(tables, second) {
      return None;
    }
    var issues: seq<Issue> := [];
    if first.body.members != second.body.members {
      issues := issues + [MemberManifestsDiffer];
    }
    if first.body.rootDigest != second.body.rootDigest {
      issues := issues + [NormalizedRootDigestsDiffer];
    }
    if first.body.artifactSha256 != second.body.artifactSha256 {
      issues := issues + [CompressedArtifactDigestsDiffer];
    }
    if first.body.memberCount != second.body.memberCount {
      issues := issues + [MemberCountsDiffer];
    }
    if first.body.totalRegularBytes != second.body.totalRegularBytes {
      issues := issues + [RegularByteTotalsDiffer];
    }
    result := Some(Assessment(issues == [], issues, first.digest, second.digest));
  }

  /** Every built manifest validates, and building succeeds exactly when the candidate pins the members. */
  lemma BuiltManifestsValidate(tables: TextTables, c: ReleaseCandidate, members: seq<ArchiveMember>)
    ensures BuildManifest(tables, c, members).Success? ==>
              var m := BuildManifest(tables, c, members).value;
              && ValidateManifest(tables, m)
              && m.body.members == members && m.body.artifactSha256 == c.artifactSha256
              && m.body.candidateDigest == OfCandidate(c)
    ensures BuildManifest(tables, c, members).Success?
            <==> ValidateMembers(tables, members) && ValidCandidate(c)
                 && c.rootDigest == OfMembers(members) && c.memberCount == |members|
    ensures BuildManifest(tables, c, members).Success? ==>
              c.otherFieldsValid && WellFormed(c.artifactSha256) && 1 <= |members| <= 500_000
  {
    hide ValidateMembers;
  }

  /** A valid manifest's digest determines every field of it, and the digests it names are well formed. */
  lemma ManifestDigestIdentifiesContent(tables: TextTables, a: Manifest, b: Manifest)
    requires ValidateManifest(tables, a) && ValidateManifest(tables, b)
    ensures a.digest == b.digest <==> a == b
    ensures a == b <==> a.body.members == b.body.members && a.body.artifactSha256 == b.body.artifactSha256
                        && a.body.candidateDigest == b.body.candidateDigest
    ensures WellFormed(a.body.artifactSha256) && WellFormed(a.body.candidateDigest)
  {
    hide ValidateMembers;
  }
}
