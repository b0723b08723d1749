/**
 Lexical POSIX paths: `split`, `join`, `dirname` and `normpath` as `posixpath` defines them, and the
 walk over a tree that `normpath` is meant to predict.
 */
module PosixPaths {
  import opened Common

  /** The parts with one more character at the front of the first. */
  function Prepend(c: char, parts: seq<string>): seq<string>
    requires parts != []
  {
    [[c] + parts[0]] + parts[1..]
  }

  /** `s.split("/")`. */
  function Split(s: string): (parts: seq<string>)
    ensures |parts| >= 1
  {
    if s == "" then [""]
    else if s[0] == '/' then [""] + Split(s[1..])
    else Prepend(s[0], Split(s[1..]))
  }

  /** `"/".join(parts)`. */
  function Join(parts: seq<string>): string {
    if parts == [] then ""
    else if |parts| == 1 then parts[0]
    else parts[0] + "/" + Join(parts[1..])
  }

  predicate NoSlash(part: string) {
    '/' !in part
  }

  predicate AllNoSlash(parts: seq<string>) {
    forall i | 0 <= i < |parts| :: NoSlash(parts[i])
  }

  /** A component that names an entry, as opposed to "", "." and "..". */
  predicate Ordinary(part: string) {
    part != "" && part != "." && part != ".."
  }

  predicate AllOrdinary(parts: seq<string>) {
    forall i | 0 <= i < |parts| :: Ordinary(parts[i])
  }

  // ---------------------------------------------------------------- normpath

  /** One turn of the loop in `normpath`. */
  function Push(stack: seq<string>, part: string, rooted: bool): seq<string> {
    if part == "" || part == "." then stack
    else if part != ".." || (!rooted && stack == []) || (stack != [] && stack[|stack| - 1] == "..") then stack + [part]
    else if stack != [] then stack[..|stack| - 1]
    else stack
  }

  function PushAll(stack: seq<string>, parts: seq<string>, rooted: bool): seq<string>
    decreases |parts|
  {
    if parts == [] then stack else PushAll(Push(stack, parts[0], rooted), parts[1..], rooted)
  }

  /** Zero, one, or exactly two leading slashes are kept. */
  function InitialSlashes(path: string): string {
    if path == "" || path[0] != '/' then ""
    else if |path| >= 2 && path[1] == '/' && !(|path| >= 3 && path[2] == '/') then "//"
    else "/"
  }

  function Normpath(path: string): string {
    if path == "" then "."
    else
      var slashes := InitialSlashes(path);
      var normal := slashes + Join(PushAll([], Split(path), slashes != ""));
      if normal == "" then "." else normal
  }

  // ---------------------------------------------------------------- dirname and join

  function LastSlash(path: string): (at: int)
    ensures -1 <= at < |path|
    ensures at >= 0 ==> path[at] == '/'
    ensures forall i | at < i < |path| :: path[i] != '/'
  {
    if path == "" then -1
    else if path[|path| - 1] == '/' then |path| - 1
    else LastSlash(path[..|path| - 1])
  }

  function StripTrailing(s: string): string {
    if s != "" && s[|s| - 1] == '/' then StripTrailing(s[..|s| - 1]) else s
  }

  function StripLeading(s: string): string {
    if s != "" && s[0] == '/' then StripLeading(s[1..]) else s
  }

  predicate AllSlashes(s: string) {
    forall i | 0 <= i < |s| :: s[i] == '/'
  }

  function Dirname(path: string): string {
    var head := path[..LastSlash(path) + 1];
    if !AllSlashes(head) then StripTrailing(head) else head
  }

  function JoinPath(base: string, name: string): string {
    if name != "" && name[0] == '/' then name
    else if base == "" || base[|base| - 1] == '/' then base + name
    else base + "/" + name
  }

  // ---------------------------------------------------------------- the walk

  /** Follow the components from a directory given by its own components; None once it pops the root. */
  function Walk(at: seq<string>, parts: seq<string>): Option<seq<string>>
    decreases |parts|
  {
    if parts == [] then Some(at)
    else if parts[0] == "" || parts[0] == "." then Walk(at, parts[1..])
    else if parts[0] == ".." then if at == [] then None else Walk(at[..|at| - 1], parts[1..])
    else Walk(at + [parts[0]], parts[1..])
  }

  // ---------------------------------------------------------------- split and join are inverse

  lemma JoinPrependsToFirst(c: char, parts: seq<string>)
    requires parts != []
    ensures Join(Prepend(c, parts)) == [c] + Join(parts)
  {
    assert Prepend(c, parts)[1..] == parts[1..];
    if |parts| > 1 {
      assert [c] + parts[0] + "/" + Join(parts[1..]) == [c] + (parts[0] + "/" + Join(parts[1..]));
    }
  }

  lemma JoinStartsEmpty(parts: seq<string>)
    requires parts != []
    ensures Join([""] + parts) == "/" + Join(parts)
  {
    assert ([""] + parts)[1..] == parts;
  }

  lemma {:induction false} JoinOfSplit(s: string)
    ensures Join(Split(s)) == s
  {
    if s == "" {
    } else {
      JoinOfSplit(s[1..]);
      if s[0] == '/' {
        JoinStartsEmpty(Split(s[1..]));
      } else {
        JoinPrependsToFirst(s[0], Split(s[1..]));
      }
    }
  }

  lemma {:induction false} SplitPartsHaveNoSlash(s: string)
    ensures AllNoSlash(Split(s))
  {
    if s == "" {
    } else {
      SplitPartsHaveNoSlash(s[1..]);
    }
  }

  lemma {:induction false} SplitOfOnePart(s: string)
    requires NoSlash(s)
    ensures Split(s) == [s]
  {
    if s == "" {
    } else {
      SplitOfOnePart(s[1..]);
      assert [s[0]] + s[1..] == s;
    }
  }

  lemma SplitOfSlash(b: string)
    ensures Split("/" + b) == [""] + Split(b)
  {
    assert ("/" + b)[1..] == b;
  }

  /** Splitting distributes over the separator. */
  lemma {:induction false} SplitConcat(a: string, b: string)
    ensures Split(a + "/" + b) == Split(a) + Split(b)
  {
    if a == "" {
      assert a + "/" + b == "/" + b;
      SplitOfSlash(b);
    } else {
      SplitConcat(a[1..], b);
      assert (a + "/" + b)[1..] == a[1..] + "/" + b;
      if a[0] == '/' {
        assert [""] + (Split(a[1..]) + Split(b)) == Split(a) + Split(b);
      } else {
        PrependConcat(a[0], Split(a[1..]), Split(b));
      }
    }
  }

  lemma PrependConcat(c: char, parts: seq<string>, more: seq<string>)
    requires parts != []
    ensures Prepend(c, parts + more) == Prepend(c, parts) + more
  {
    assert (parts + more)[1..] == parts[1..] + more;
  }

  lemma {:induction false} SplitOfJoin(parts: seq<string>)
    requires parts != [] && AllNoSlash(parts)
    ensures Split(Join(parts)) == parts
    decreases |parts|
  {
    SplitOfOnePart(parts[0]);
    if |parts| <= 1 {
    } else {
      SplitOfJoin(parts[1..]);
      SplitConcat(parts[0], Join(parts[1..]));
    }
  }

  lemma {:induction false} JoinConcat(a: seq<string>, b: seq<string>)
    requires a != [] && b != []
    ensures Join(a + b) == Join(a) + "/" + Join(b)
    decreases |a|
  {
    if |a| == 1 {
      assert (a + b)[1..] == b;
    } else {
      JoinConcat(a[1..], b);
      assert (a + b)[1..] == a[1..] + b;
    }
  }

  // ---------------------------------------------------------------- normpath against the walk

  lemma {:induction false} PushAllAppends(stack: seq<string>, a: seq<string>, b: seq<string>, rooted: bool)
    ensures PushAll(stack, a + b, rooted) == PushAll(PushAll(stack, a, rooted), b, rooted)
    decreases |a|
  {
    if a == [] {
      assert a + b == b;
    } else {
      assert (a + b)[1..] == a[1..] + b;
      PushAllAppends(Push(stack, a[0], rooted), a[1..], b, rooted);
    }
  }

  lemma {:induction false} OrdinaryPartsAreAllKept(stack: seq<string>, parts: seq<string>, rooted: bool)
    requires AllOrdinary(parts)
    ensures PushAll(stack, parts, rooted) == stack + parts
    decreases |parts|
  {
    if parts == [] {
    } else {
      OrdinaryPartsAreAllKept(stack + [parts[0]], parts[1..], rooted);
    }
  }

  /** A ".." at the bottom of the stack is never popped. */
  lemma {:induction false} LeadingDotDotStays(stack: seq<string>, parts: seq<string>)
    requires stack != [] && stack[0] == ".."
    ensures PushAll(stack, parts, false) != [] && PushAll(stack, parts, false)[0] == ".."
    decreases |parts|
  {
    if parts == [] {
    } else {
      LeadingDotDotStays(Push(stack, parts[0], false), parts[1..]);
    }
  }

  /** `normpath` ends where the walk ends; when the walk leaves the root, a ".." leads its result. */
  lemma {:induction false} NormalisationPredictsTheWalk(at: seq<string>, parts: seq<string>)
    requires AllOrdinary(at)
    ensures Walk(at, parts).Some? ==>
              PushAll(at, parts, false) == Walk(at, parts).value && AllOrdinary(Walk(at, parts).value)
    ensures Walk(at, parts).None? ==>
              PushAll(at, parts, false) != [] && PushAll(at, parts, false)[0] == ".."
    decreases |parts|
  {
    if parts == [] {
    } else {
      if parts[0] == ".." && at == [] {
        assert Push(at, "..", false) == [".."];
        LeadingDotDotStays([".."], parts[1..]);
      } else {
        NormalisationPredictsTheWalk(Push(at, parts[0], false), parts[1..]);
      }
    }
  }

  /** Dot-dots, if any remain, form a leading run; everything after them is ordinary. */
  ghost predicate LeadingRun(stack: seq<string>, run: nat) {
    && run <= |stack|
    && (forall i | 0 <= i < run :: stack[i] == "..")
    && AllOrdinary(stack[run..])
  }

  lemma {:induction false} DotDotSurvivesOnlyAsALeadingRun(stack: seq<string>, run: nat, parts: seq<string>)
      returns (end: nat)
    requires LeadingRun(stack, run)
    ensures LeadingRun(PushAll(stack, parts, false), end) && end >= run
    decreases |parts|
  {
    if parts == [] {
      end := run;
    } else {
      var next := Push(stack, parts[0], false);
      var longer := if parts[0] == ".." && |stack| == run then run + 1 else run;
      if |next| > |stack| {
        assert next[longer..] == if longer > run then [] else stack[run..] + [parts[0]];
      } else if |next| < |stack| {
        assert stack[|stack| - 1] == stack[run..][|stack| - 1 - run];
        assert next[run..] == stack[run..][..|stack| - 1 - run];
      }
      end := DotDotSurvivesOnlyAsALeadingRun(next, longer, parts[1..]);
    }
  }

  lemma {:induction false} PushedPartsHaveNoSlash(stack: seq<string>, parts: seq<string>, rooted: bool)
    requires AllNoSlash(stack) && AllNoSlash(parts)
    ensures AllNoSlash(PushAll(stack, parts, rooted))
    decreases |parts|
  {
    if parts == [] {
    } else {
      PushedPartsHaveNoSlash(Push(stack, parts[0], rooted), parts[1..], rooted);
    }
  }

  /** `normpath` is the identity on every path whose components are all ordinary. */
  lemma NormpathIsIdentityOnOrdinaryPaths(path: string)
    requires AllOrdinary(Split(path))
    ensures path != "" && path[0] != '/' && Normpath(path) == path
  {
    assert Ordinary(Split(path)[0]);
    OrdinaryPartsAreAllKept([], Split(path), false);
    assert [] + Split(path) == Split(path);
    JoinOfSplit(path);
    assert "" + path == path;
  }

  // ---------------------------------------------------------------- dirname of an ordinary path

  lemma TrailingSlashLeavesAnEmptyPart(path: string)
    requires path != "" && path[|path| - 1] == '/'
    ensures Split(path)[|Split(path)| - 1] == ""
  {
    var base := path[..|path| - 1];
    assert path == base + "/" + "";
    SplitConcat(base, "");
  }

  lemma OrdinaryPathHasNoOuterSlash(path: string)
    requires AllOrdinary(Split(path))
    ensures path != "" && path[0] != '/' && path[|path| - 1] != '/'
  {
    hide Normpath, PushAll, Split;
    NormpathIsIdentityOnOrdinaryPaths(path);
    assert Ordinary(Split(path)[|Split(path)| - 1]);
    if path[|path| - 1] == '/' {
      TrailingSlashLeavesAnEmptyPart(path);
    }
  }

  lemma DirnameOfJoined(base: string, name: string)
    requires base != "" && base[0] != '/' && base[|base| - 1] != '/' && NoSlash(name)
    ensures Dirname(base + "/" + name) == base
  {
    var path := base + "/" + name;
    assert path[|base|] == '/';
    assert forall i | |base| < i < |path| :: path[i] == name[i - |base| - 1];
    assert LastSlash(path) == |base|;
    var head := path[..|base| + 1];
    assert head[0] == base[0];
    assert !AllSlashes(head);
    assert head[|head| - 1] == '/' && head[..|head| - 1] == base;
    assert StripTrailing(base) == base;
  }

  /** The directory of a path is its components but the last. */
  lemma DirnameDropsTheLastPart(path: string)
    requires AllOrdinary(Split(path))
    ensures Dirname(path) == Join(Split(path)[..|Split(path)| - 1])
  {
    var at := LastSlash(path);
    if at < 0 {
      SplitOfOnePart(path);
      assert path[..0] == "";
    } else {
      var base, name := path[..at], path[at + 1..];
      assert path == base + "/" + name;
      SplitConcat(base, name);
      SplitOfOnePart(name);
      JoinOfSplit(base);
      assert Split(path)[..|Split(path)| - 1] == Split(base);
      PrefixOfOrdinaryIsOrdinary(Split(base), [name]);
      OrdinaryPathHasNoOuterSlash(base);
      DirnameOfJoined(base, name);
    }
  }

  lemma PrefixOfOrdinaryIsOrdinary(a: seq<string>, b: seq<string>)
    requires AllOrdinary(a + b)
    ensures AllOrdinary(a)
  {
    assert forall i | 0 <= i < |a| :: a[i] == (a + b)[i];
  }

  // ---------------------------------------------------------------- stripping leading slashes

  /** Leading slashes only add empty components, which the walk skips. */
  lemma {:induction false} WalkIgnoresLeadingSlashes(at: seq<string>, s: string)
    ensures Walk(at, Split(StripLeading(s))) == Walk(at, Split(s))
    ensures StripLeading(s) == "" || StripLeading(s)[0] != '/'
    ensures AllSlashes(s) <==> StripLeading(s) == ""
    decreases |s|
  {
    if s != "" && s[0] == '/' {
      WalkIgnoresLeadingSlashes(at, s[1..]);
      assert ([""] + Split(s[1..]))[1..] == Split(s[1..]);
      assert AllSlashes(s) <==> AllSlashes(s[1..]) by {
        assert forall i | 0 <= i < |s| - 1 :: s[1..][i] == s[i + 1];
        if AllSlashes(s[1..]) {
          forall i | 0 <= i < |s| ensures s[i] == '/' {
            assert i > 0 ==> s[1..][i - 1] == '/';
          }
        }
      }
    }
  }
}
