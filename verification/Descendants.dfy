/** The closure loop of `_descendants` (src/apx_first_boot_experiment.py) over any map of pids to parents. */
module Descendants {
  import opened Common
  import opened Ordering

  type Parents = map<nat, nat>

  /** Where `steps` parent links from a pid lead, if they all exist. */
  function Ancestor(parents: Parents, pid: nat, steps: nat): Option<nat>
    decreases steps
  {
    if steps == 0 then Some(pid)
    else if pid in parents then Ancestor(parents, parents[pid], steps - 1)
    else None
  }

  ghost predicate Reaches(parents: Parents, pid: nat, root: nat) {
    exists steps: nat :: steps > 0 && Ancestor(parents, pid, steps) == Some(root)
  }

  lemma OneStepReaches(parents: Parents, pid: nat, root: nat)
    requires pid in parents && (parents[pid] == root || Reaches(parents, parents[pid], root))
    ensures Reaches(parents, pid, root)
  {
    if parents[pid] == root {
      assert Ancestor(parents, root, 0) == Some(root);
      assert Ancestor(parents, pid, 1) == Some(root);
    } else {
      var steps: nat :| steps > 0 && Ancestor(parents, parents[pid], steps) == Some(root);
      assert Ancestor(parents, pid, steps + 1) == Some(root);
    }
  }

  /** Every child of the root or of a found pid has been found. */
  predicate Closed(parents: Parents, root: nat, found: set<nat>) {
    forall pid | pid in parents && (parents[pid] == root || parents[pid] in found) :: pid in found
  }

  /** A closed set misses nothing, however long the way to the root. */
  lemma {:induction false} ClosedIsComplete(parents: Parents, root: nat, found: set<nat>, pid: nat, steps: nat)
    requires Closed(parents, root, found) && steps > 0 && Ancestor(parents, pid, steps) == Some(root)
    ensures pid in found
    decreases steps
  {
    if steps == 1 {
      assert Ancestor(parents, parents[pid], 0) == Some(parents[pid]);
    } else {
      ClosedIsComplete(parents, root, found, parents[pid], steps - 1);
    }
  }

  /** The frontier loop ends on any map, cycles included, with exactly the pids that reach the root. */
  method Closure(parents: Parents, root: nat) returns (found: set<nat>)
    ensures forall pid :: pid in found <==> Reaches(parents, pid, root)
  {
    hide Reaches;
    found := {};
    var frontier := {root};
    while frontier != {}
      invariant found <= parents.Keys
      invariant forall pid | pid in frontier :: pid == root || pid in found
      invariant forall pid | pid in found :: Reaches(parents, pid, root)
      invariant forall pid | pid in parents && (parents[pid] == root || parents[pid] in found)
                                   && parents[pid] !in frontier ::
                  pid in found
      decreases parents.Keys - found, frontier
    {
      var children := set pid | pid in parents && parents[pid] in frontier && pid !in found;
      forall pid | pid in children ensures Reaches(parents, pid, root) {
        OneStepReaches(parents, pid, root);
      }
      if children != {} {
        var child :| child in children;
        assert child in parents.Keys - found && child !in parents.Keys - (found + children);
      }
      found := found + children;
      frontier := children;
    }
    forall pid | Reaches(parents, pid, root) ensures pid in found {
      var steps := StepsToRoot(parents, pid, root);
      ClosedIsComplete(parents, root, found, pid, steps);
    }
  }

  lemma StepsToRoot(parents: Parents, pid: nat, root: nat) returns (steps: nat)
    requires Reaches(parents, pid, root)
    ensures steps > 0 && Ancestor(parents, pid, steps) == Some(root)
  {
    steps :| steps > 0 && Ancestor(parents, pid, steps) == Some(root);
  }

  predicate Leq(a: nat, b: nat) {
    a <= b
  }

  /** `_descendants`: the closure in increasing order, each pid once. */
  method DescendantsOf(parents: Parents, root: nat) returns (result: seq<nat>)
    ensures forall pid :: pid in result <==> Reaches(parents, pid, root)
    ensures forall i, j | 0 <= i < j < |result| :: result[i] < result[j]
  {
    hide Reaches;
    var found := Closure(parents, root);
    result := [];
    var left := found;
    while left != {}
      invariant left <= found && Ordered(result, Leq) && NoDuplicates(result)
      invariant forall pid :: pid in result <==> pid in found && pid !in left
    {
      var pid :| pid in left;
      InsertOrders(result, pid, Leq);
      InsertOnce(result, pid);
      result, left := Insert(result, pid, Leq), left - {pid};
    }
  }

  lemma InsertOnce(pids: seq<nat>, pid: nat)
    requires NoDuplicates(pids) && pid !in pids
    ensures NoDuplicates(Insert(pids, pid, Leq))
    ensures forall x :: x in Insert(pids, pid, Leq) <==> x in pids || x == pid
  {
    InsertAdds(pids, pid, Leq);
    var inserted := Insert(pids, pid, Leq);
    forall x ensures multiset(inserted)[x] <= 1 && (x in inserted <==> x in pids || x == pid) {
      CountOfDistinct(pids, x);
      assert x in inserted <==> x in multiset(inserted);
    }
    forall i, j | 0 <= i < j < |inserted| ensures inserted[i] != inserted[j] {
      if inserted[i] == inserted[j] {
        TwoPlacesCount(inserted, i, j);
      }
    }
  }
}
