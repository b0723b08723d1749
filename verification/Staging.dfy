/**
 Protected acquisition staging (src/apx_staging.py) over a directory of names and inodes. A system
 call may fail and the process may be killed between any two calls, unless the directory is reliable.
 */
module Staging {
  import opened Common
  import opened Sums

  const MAX_FILES := 1028
  const MAX_AGGREGATE_BYTES := 4 * 1024 * 1024 * 1024

  datatype Digest = Text(text: string) | Sha256(content: Bytes)

  predicate WellFormed(d: Digest) {
    d.Sha256? || IsHexDigest(d.text)
  }

  /** A file; trusted when this user owns it with mode 0600. */
  datatype Inode = Inode(regular: bool, trusted: bool, content: Bytes)

  predicate FilenameStart(c: char) {
    'A' <= c <= 'Z' || 'a' <= c <= 'z' || '0' <= c <= '9'
  }

  /** `[A-Za-z0-9][A-Za-z0-9@+_.:-]{0,254}`. */
  predicate SafeFilename(name: string) {
    && 1 <= |name| <= 255
    && FilenameStart(name[0])
    && forall i | 1 <= i < |name| :: FilenameStart(name[i]) || name[i] in {'@', '+', '_', '.', ':', '-'}
  }

  const PARTIAL := ".partial"

  // ---------------------------------------------------------------- the directory

  /** The `files` directory of one operation: hard links are names sharing an inode. */
  datatype Files = Files(names: map<string, nat>, inodes: map<nat, Inode>)

  /** Every name has an inode and every inode a name. */
  ghost predicate Consistent(f: Files) {
    && (forall name | name in f.names :: f.names[name] in f.inodes)
    && (forall i | i in f.inodes :: exists name :: name in f.names && f.names[name] == i)
  }

  ghost function InodeSizes(f: Files): map<nat, nat> {
    map i | i in f.inodes :: |f.inodes[i].content|
  }

  /** Bytes held, counting each inode once. */
  ghost function Held(f: Files): nat {
    Sum(InodeSizes(f))
  }

  ghost function NameSizes(f: Files): map<string, nat>
    requires forall name | name in f.names :: f.names[name] in f.inodes
  {
    map name | name in f.names :: |f.inodes[f.names[name]].content|
  }

  /** Bytes as the usage scan counts them: each name once. */
  ghost function Scanned(f: Files): nat
    requires forall name | name in f.names :: f.names[name] in f.inodes
  {
    Sum(NameSizes(f))
  }

  /** The staging limits, over distinct inodes. */
  ghost predicate WithinLimits(f: Files) {
    |f.inodes| <= MAX_FILES && Held(f) <= MAX_AGGREGATE_BYTES
  }

  function Create(f: Files, name: string, inode: nat): Files {
    Files(f.names[name := inode], f.inodes[inode := Inode(true, true, [])])
  }

  function Append(f: Files, inode: nat, bytes: Bytes): Files
    requires inode in f.inodes
  {
    f.(inodes := f.inodes[inode := f.inodes[inode].(content := f.inodes[inode].content + bytes)])
  }

  function Link(f: Files, name: string, inode: nat): Files {
    f.(names := f.names[name := inode])
  }

  /** Remove a name; its inode goes with its last name. */
  function Unlink(f: Files, name: string): Files
    requires name in f.names
  {
    var names := f.names - {name};
    Files(names, if f.names[name] in names.Values then f.inodes else f.inodes - {f.names[name]})
  }

  // ---------------------------------------------------------------- the scan counts at least what is held

  lemma UnlinkDropsOneName(f: Files, name: string)
    requires Consistent(f) && name in f.names
    ensures Consistent(Unlink(f, name))
    ensures |Unlink(f, name).names| == |f.names| - 1
    ensures NameSizes(Unlink(f, name)) == NameSizes(f) - {name}
  {
    UnlinkKeepsConsistent(f, name);
    assert Unlink(f, name).names.Keys == f.names.Keys - {name};
  }

  lemma UnlinkDropsAtMostOneInode(f: Files, name: string)
    requires Consistent(f) && name in f.names
    ensures var rest := Unlink(f, name);
            if f.names[name] in rest.names.Values then rest.inodes == f.inodes
            else InodeSizes(rest) == InodeSizes(f) - {f.names[name]} && |rest.inodes| == |f.inodes| - 1
  {
    hide Consistent;
    var rest := Unlink(f, name);
    if f.names[name] !in rest.names.Values {
      assert rest.inodes.Keys == f.inodes.Keys - {f.names[name]};
      NamedInodeExists(f, name);
    }
  }

  lemma NamedInodeExists(f: Files, name: string)
    requires Consistent(f) && name in f.names
    ensures f.names[name] in f.inodes
  {
  }

  /** A file linked twice is scanned twice, so the scan never undercounts. */
  lemma {:induction false} ScanDominatesHeld(f: Files)
    requires Consistent(f)
    ensures Held(f) <= Scanned(f) && |f.inodes| <= |f.names|
    decreases |f.names|
  {
    if f.names == map[] {
      assert f.inodes == map[];
      assert InodeSizes(f) == map[];
    } else {
      var name :| name in f.names;
      UnlinkDropsOneName(f, name);
      UnlinkDropsAtMostOneInode(f, name);
      ScanDominatesHeld(Unlink(f, name));
      SumRemove(NameSizes(f), name);
      SumRemove(InodeSizes(f), f.names[name]);
    }
  }

  lemma UnlinkKeepsConsistent(f: Files, name: string)
    requires Consistent(f) && name in f.names
    ensures Consistent(Unlink(f, name))
  {
    var rest := Unlink(f, name);
    forall i | i in rest.inodes ensures exists other :: other in rest.names && rest.names[other] == i {
      var other :| other in f.names && f.names[other] == i;
      if other == name {
        assert i in rest.names.Values;
        var third :| third in rest.names && rest.names[third] == i;
      } else {
        assert other in rest.names;
      }
    }
  }

  lemma HeldAfterCreate(f: Files, name: string, inode: nat)
    requires inode !in f.inodes
    ensures Held(Create(f, name, inode)) == Held(f)
    ensures |Create(f, name, inode).inodes| == |f.inodes| + 1
  {
    InsertAddsOneKey(f.inodes, inode, Inode(true, true, []));
    SumInsert(InodeSizes(f), inode, 0);
    assert InodeSizes(Create(f, name, inode)) == InodeSizes(f)[inode := 0];
  }

  lemma HeldAfterAppend(f: Files, inode: nat, bytes: Bytes)
    requires inode in f.inodes
    ensures Held(Append(f, inode, bytes)) == Held(f) + |bytes|
    ensures Append(f, inode, bytes).inodes.Keys == f.inodes.Keys
  {
    var size := |f.inodes[inode].content| + |bytes|;
    SumUpdate(InodeSizes(f), inode, size);
    assert InodeSizes(Append(f, inode, bytes)) == InodeSizes(f)[inode := size];
  }

  /** A safe filename is one component, and so is its partial. */
  lemma SafeFilenamesStayInTheDirectory(name: string)
    requires SafeFilename(name)
    ensures '/' !in name && '/' !in name + PARTIAL
    ensures name != "" && name[0] != '.' && name != "." && name != ".."
  {
    forall i | 0 <= i < |name| ensures name[i] != '/' {
      assert i == 0 || FilenameStart(name[i]) || name[i] in {'@', '+', '_', '.', ':', '-'};
    }
  }
}
