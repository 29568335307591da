/** The two-pointer merge walk over a lower and an upper tree: what it reports as
    exclusive to lower and as common. */
module Walker {
  import opened Collections
  import opened Wrappers
  import opened FileTree
  import opened NameOrder

  /** What the callbacks receive. A collapsed entry stands for its whole subtree. */
  datatype Emission =
    | Exclusive(path: Path, isDir: bool, collapsed: bool)
    | Common(path: Path, isDir: bool)

  /* ---- what the walk emits ---- */

  /** A lower-only entry: collapsed on a direct match, else entry by entry. */
  function Lone(f: Filter, p: Path, n: Node): seq<Emission>
    decreases n, 1, 0
  {
    if !f(p, n.Dir?) then []
    else if n.Leaf? then [Exclusive(p, false, false)]
    else if f(p, false) then [Exclusive(p, true, true)]
    else Merge(f, p, n.entries, [])
  }

  /** An entry of both trees. */
  function Both(f: Filter, p: Path, l: Node, u: Node): seq<Emission>
    decreases l, 1, 0
  {
    if l.Dir? && u.Dir? then Merge(f, p, l.entries, u.entries)
    else if l.Dir? then [Common(p, true), Exclusive(p, true, true)]
    else [Common(p, false)]
  }

  /** Two sorted listings. */
  function Merge(f: Filter, p: Path, ls: seq<Entry>, us: seq<Entry>): seq<Emission>
    decreases ls, 0, |us|
  {
    if ls == [] then []
    else
      var here := p + [ls[0].name];
      if us == [] || Before(ls[0].name, us[0].name) then
        Lone(f, here, ls[0].node) + Merge(f, p, ls[1..], us)
      else if Before(us[0].name, ls[0].name) then
        Merge(f, p, ls, us[1..])
      else
        (if f(here, ls[0].node.Dir?) then Both(f, here, ls[0].node, us[0].node) else [])
        + Merge(f, p, ls[1..], us[1..])
  }

  /** The whole walk; the upper root may be absent. */
  function Walk(f: Filter, lower: seq<Entry>, upper: Option<seq<Entry>>): seq<Emission> {
    Merge(f, [], lower, if upper.Some? then upper.value else [])
  }

  class Differ {
    const accepts: Filter
    var emitted: seq<Emission>

    constructor (accepts: Filter)
      ensures this.accepts == accepts && emitted == []
    {
      this.accepts := accepts;
      emitted := [];
    }

    method EmitExclusive(dir: Path, entry: Entry)
      modifies this
      ensures emitted == old(emitted) + Lone(accepts, dir + [entry.name], entry.node)
      decreases entry.node, 1
    {
      var path := dir + [entry.name];
      if !accepts(path, entry.node.Dir?) {
        return;
      }
      match entry.node {
        case Dir(entries) =>
          if accepts(path, false) {
            emitted := emitted + [Exclusive(path, true, true)];
          } else {
            EmitAllExclusive(path, entries);
          }
        case Leaf(_) =>
          emitted := emitted + [Exclusive(path, false, false)];
      }
    }

    method EmitAllExclusive(dir: Path, entries: seq<Entry>)
      modifies this
      ensures emitted == old(emitted) + Merge(accepts, dir, entries, [])
      decreases entries, 2
    {
      for i := 0 to |entries|
        invariant emitted + Merge(accepts, dir, entries[i..], []) == old(emitted) + Merge(accepts, dir, entries, [])
      {
        assert entries[i..][0] == entries[i] && entries[i..][1..] == entries[i + 1..];
        EmitExclusive(dir, entries[i]);
      }
    }

    method HandleCommon(path: Path, lower: Node, upper: Node)
      modifies this
      ensures emitted == old(emitted) + Both(accepts, path, lower, upper)
      decreases lower, 1
    {
      if lower.Dir? && upper.Dir? {
        WalkBoth(path, lower.entries, Some(upper.entries));
      } else if lower.Dir? {
        emitted := emitted + [Common(path, true)];
        emitted := emitted + [Exclusive(path, true, true)];
      } else {
        emitted := emitted + [Common(path, false)];
      }
    }

    /** What is done plus what the rest of the two listings will give. */
    ghost function Outlook(dir: Path, ls: seq<Entry>, us: seq<Entry>): seq<Emission>
      reads this
    {
      emitted + Merge(accepts, dir, ls, us)
    }

    /** walkBoth, with the listings it reads; upper is None when the upper
        directory does not exist. */
    method WalkBoth(dir: Path, lower: seq<Entry>, upper: Option<seq<Entry>>)
      modifies this
      ensures emitted == old(emitted) + Merge(accepts, dir, lower, if upper.Some? then upper.value else [])
      decreases lower, 3
    {
      if upper.None? {
        EmitAllExclusive(dir, lower);
        return;
      }
      var us := upper.value;
      var i, j := 0, 0;
      while i < |lower| && j < |us|
        invariant 0 <= i <= |lower| && 0 <= j <= |us|
        invariant Outlook(dir, lower[i..], us[j..]) == old(Outlook(dir, lower, us))
        decreases |lower| - i + |us| - j
      {
        i, j := Classify(dir, lower, us, i, j);
      }
      while i < |lower|
        invariant 0 <= i <= |lower| && (i < |lower| ==> j == |us|)
        invariant Outlook(dir, lower[i..], us[j..]) == old(Outlook(dir, lower, us))
      {
        Tails(lower, i);
        EmitExclusive(dir, lower[i]);
        i := i + 1;
      }
    }

    /** One turn of the two-pointer loop. */
    method Classify(dir: Path, lower: seq<Entry>, us: seq<Entry>, i: nat, j: nat) returns (i': nat, j': nat)
      requires i < |lower| && j < |us|
      modifies this
      ensures i <= i' <= |lower| && j <= j' <= |us| && i + j < i' + j'
      ensures Outlook(dir, lower[i'..], us[j'..]) == old(Outlook(dir, lower[i..], us[j..]))
      decreases lower, 2
    {
      i', j' := i, j;
      var le, ue := lower[i], us[j];
      MergeTurn(accepts, dir, lower, us, i, j);
      ghost var done, here := emitted, dir + [le.name];
      if Before(le.name, ue.name) {
        Associate(done, Lone(accepts, here, le.node), Merge(accepts, dir, lower[i + 1..], us[j..]));
        EmitExclusive(dir, le);
        i' := i + 1;
      } else if Before(ue.name, le.name) {
        j' := j + 1;
      } else {
        ghost var rest := Merge(accepts, dir, lower[i + 1..], us[j + 1..]);
        Associate(done, Both(accepts, here, le.node, ue.node), rest);
        Associate(done, [], rest);
        if accepts(dir + [le.name], le.node.Dir?) {
          HandleCommon(dir + [le.name], le.node, ue.node);
        }
        i', j' := i + 1, j + 1;
      }
    }
  }

  lemma MergeTurn(f: Filter, p: Path, ls: seq<Entry>, us: seq<Entry>, i: nat, j: nat)
    requires i < |ls| && j < |us|
    ensures var here := p + [ls[i].name];
            Merge(f, p, ls[i..], us[j..]) ==
              if Before(ls[i].name, us[j].name) then Lone(f, here, ls[i].node) + Merge(f, p, ls[i + 1..], us[j..])
              else if Before(us[j].name, ls[i].name) then Merge(f, p, ls[i..], us[j + 1..])
              else (if f(here, ls[i].node.Dir?) then Both(f, here, ls[i].node, us[j].node) else [])
                   + Merge(f, p, ls[i + 1..], us[j + 1..])
  {
    Tails(ls, i);
    Tails(us, j);
  }

  lemma Tails<T>(s: seq<T>, i: nat)
    requires i < |s|
    ensures s[i..] != [] && s[i..][0] == s[i] && s[i..][1..] == s[i + 1..]
  {
  }
}
