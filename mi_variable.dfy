/**
 * The MI variable-object synchroniser (debuggers/common/mivariable.cpp):
 * a tree of variables shown in the debugger views, each possibly bound to
 * a debugger-side variable object ("varobj") through a handle, and the
 * session's handle-to-variable table that must stay in step with it.
 *
 * Variables live in a table indexed by stable ids; a node records its
 * parent and its ordered children. Commands sent to the debugger and the
 * callbacks fired are logged. The reply records are given as typed views
 * of the fields the handlers read.
 */
module MIVariable {
  import opened Text

  type NodeId = nat

  datatype DebuggerState =
    NotStartedState | StartingState | ActiveState | PausedState | StoppingState | StoppedState | EndedState

  datatype Format = Natural | Binary | Octal | Decimal | Hexadecimal

  /** One variable of the tree: the MIVariable fields and the Variable/TreeItem state it sets. */
  datatype Node = Node(
    expression: string,
    varobj: string,
    topLevel: bool,
    hasSession: bool,
    parent: Option<NodeId>,
    inScope: bool,
    hasMore: bool,
    typ: string,
    value: string,
    changed: bool,
    showError: bool,
    format: Format,
    expanded: bool,
    children: seq<NodeId>)

  /** A child tuple of a -var-list-children reply, or of `new_children` in a -var-update entry. */
  datatype ChildInfo = ChildInfo(name: string, exp: string, numchild: int, dynamic: Option<int>, typ: string, value: string)

  /** The fields of a -var-create reply that the create handler reads. */
  datatype CreateReply = CreateReply(isError: bool, name: string, numchild: int, hasMore: Option<int>,
                                     typ: string, value: string)

  /** The fields of a -var-list-children reply that the fetch handler reads. */
  datatype ChildrenReply = ChildrenReply(children: Option<seq<ChildInfo>>, hasMore: Option<int>)

  /** One changed variable of a -var-update reply. */
  datatype UpdateInfo = UpdateInfo(typeChanged: Option<string>, inScope: Option<string>,
                                   newNumChildren: Option<nat>, newChildren: Option<seq<ChildInfo>>,
                                   newType: string, value: string, hasMore: Option<int>)

  /**
   * Commands queued on the session. Their text forms are
   * `var<varId> @ <quotedExpression>`, `"<handle>"`,
   * `--all-values "<handle>" <from> <to>`, `--all-values "<handle>"` and
   * ` <handle> <format> `.
   */
  datatype SessionCommand =
    | VarCreate(varId: nat, quotedExpression: string, target: NodeId, hasCallback: bool)
    | VarDelete(handle: string)
    | VarListChildren(handle: string, from: int, to: int, join: FetchJoin)
    | VarListAccessChildren(handle: string, join: FetchJoin)
    | VarSetFormat(handle: string, format: Format, target: NodeId)

  datatype VariableEvent = CreateCallback(target: NodeId, hasValue: bool) | AllChildrenFetched(target: NodeId)

  /** sessionIsAlive: a session exists, has started, has not ended and is not shutting down. */
  predicate Alive(hasSession: bool, state: DebuggerState, shuttingDown: bool) {
    hasSession && state != NotStartedState && state != EndedState && !shuttingDown
  }

  /** formatValue: the raw value is shown as it is. */
  function FormatValue(raw: string): (r: string)
    ensures r == raw
  {
    raw
  }

  /** The pseudo-children GDB inserts for C++ access sections. */
  predicate IsAccessSpecifier(exp: string) {
    exp == "public" || exp == "protected" || exp == "private"
  }

  function ChildHasMore(info: ChildInfo): bool {
    info.numchild != 0 || (info.dynamic.Some? && info.dynamic.value != 0)
  }

  function CreateHasMore(reply: CreateReply): bool {
    if reply.hasMore.Some? && reply.hasMore.value != 0 then true else reply.numchild != 0
  }

  /** An optional integer field read as a flag: present and non-zero. */
  function Flag(field: Option<int>): bool {
    field.Some? && field.value != 0
  }

  /** A variable created by createVariable for a watch or a local. */
  function TopLevelNode(expression: string, hasSession: bool): Node {
    Node(expression, "", true, hasSession, None, true, false, "", "", false, false, Natural, false, [])
  }

  /** The node createChild builds for `info` under `parent`. */
  function ChildNode(parent: NodeId, info: ChildInfo): Node {
    Node(info.exp, info.name, false, true, Some(parent), true, ChildHasMore(info), info.typ,
         FormatValue(info.value), true, false, Natural, false, [])
  }

  /** The first `n` children of a reply that become nodes: all but the access-specifier pseudo-children, in order. */
  function Made(cs: seq<ChildInfo>, n: nat): (r: seq<ChildInfo>)
    requires n <= |cs|
    ensures |r| <= n
    ensures forall k :: 0 <= k < |r| ==> !IsAccessSpecifier(r[k].exp)
    decreases n
  {
    if n == 0 then []
    else Made(cs, n - 1) + (if IsAccessSpecifier(cs[n - 1].exp) then [] else [cs[n - 1]])
  }

  /** Number of access-specifier pseudo-children among the first `n` children of a reply. */
  function AccessCount(cs: seq<ChildInfo>, n: nat): nat
    requires n <= |cs|
    decreases n
  {
    if n == 0 then 0
    else AccessCount(cs, n - 1) + (if IsAccessSpecifier(cs[n - 1].exp) then 1 else 0)
  }

  /** Every child of a reply either becomes a node or is re-queried, never both. */
  lemma {:induction false} ChildrenPartition(cs: seq<ChildInfo>, n: nat)
    requires n <= |cs|
    ensures |Made(cs, n)| + AccessCount(cs, n) == n
    decreases n
  {
    if n > 0 {
      ChildrenPartition(cs, n - 1);
    }
  }

  /** The nodes made from a shorter part of a reply come first, in the same order. */
  lemma {:induction false} MadePrefix(cs: seq<ChildInfo>, i: nat, n: nat)
    requires i <= n <= |cs|
    ensures |Made(cs, i)| <= |Made(cs, n)| && Made(cs, n)[..|Made(cs, i)|] == Made(cs, i)
    decreases n
  {
    if i < n {
      MadePrefix(cs, i, n - 1);
      assert Made(cs, n)[..|Made(cs, n - 1)|] == Made(cs, n - 1);
    } else {
      assert Made(cs, n)[..|Made(cs, n)|] == Made(cs, n);
    }
  }

  /** A child that is not a pseudo-child is the next node made. */
  lemma MadeNext(cs: seq<ChildInfo>, i: nat)
    requires i < |cs| && !IsAccessSpecifier(cs[i].exp)
    ensures |Made(cs, i)| < |Made(cs, |cs|)| && Made(cs, |cs|)[|Made(cs, i)|] == cs[i]
  {
    MadePrefix(cs, i + 1, |cs|);
    assert Made(cs, i + 1) == Made(cs, i) + [cs[i]];
    assert Made(cs, |cs|)[..|Made(cs, i + 1)|][|Made(cs, i)|] == cs[i];
  }

  /** The ids `start`, `start + 1`, ... handed out to `n` new nodes. */
  function Range(start: nat, n: nat): (r: seq<NodeId>)
    ensures |r| == n
    ensures forall k :: 0 <= k < n ==> r[k] == start + k
  {
    seq(n, k => start + k)
  }

  // ---------------------------------------------------------------------------
  // Shape of the variable table

  ghost predicate IdsBelow(nodes: map<NodeId, Node>, bound: nat) {
    forall n :: n in nodes ==> n < bound
  }

  /** A parent always has a smaller id than its child: the tree is acyclic. */
  ghost predicate ParentsBelow(nodes: map<NodeId, Node>) {
    forall n :: n in nodes && nodes[n].parent.Some? ==> nodes[n].parent.value < n
  }

  /** A node with a parent is a child variable: the parent exists and the node is not top-level. */
  ghost predicate ParentsPresent(nodes: map<NodeId, Node>) {
    forall n :: n in nodes && nodes[n].parent.Some? ==> nodes[n].parent.value in nodes && !nodes[n].topLevel
  }

  /** Every listed child exists and names its list's owner as parent. */
  ghost predicate ChildrenLinked(nodes: map<NodeId, Node>) {
    forall p, i :: p in nodes && 0 <= i < |nodes[p].children| ==>
      nodes[p].children[i] in nodes && nodes[nodes[p].children[i]].parent == Some(p)
  }

  ghost predicate ChildrenDistinct(nodes: map<NodeId, Node>) {
    forall p, i, j :: p in nodes && 0 <= i < j < |nodes[p].children| ==> nodes[p].children[i] != nodes[p].children[j]
  }

  /** A registered non-empty handle leads to a live variable that holds it and has a session. */
  ghost predicate MappingSound(nodes: map<NodeId, Node>, mapping: map<string, NodeId>) {
    forall h :: h in mapping && h != "" ==>
      mapping[h] in nodes && nodes[mapping[h]].varobj == h && nodes[mapping[h]].hasSession
  }

  ghost predicate WellFormed(nodes: map<NodeId, Node>, mapping: map<string, NodeId>, bound: nat) {
    IdsBelow(nodes, bound) && ParentsBelow(nodes) && ParentsPresent(nodes) &&
    ChildrenLinked(nodes) && ChildrenDistinct(nodes) && MappingSound(nodes, mapping)
  }

  /** `n` lies in the subtree rooted at `root`: following parents from `n` reaches `root`. */
  predicate InSubtree(nodes: map<NodeId, Node>, root: NodeId, n: NodeId)
    decreases n
  {
    n in nodes &&
    (n == root || (nodes[n].parent.Some? && nodes[n].parent.value < n && InSubtree(nodes, root, nodes[n].parent.value)))
  }

  /** The variables a destructor chain starting at `root` deletes. */
  function Subtree(nodes: map<NodeId, Node>, root: NodeId): set<NodeId>
  {
    set n | n in nodes && InSubtree(nodes, root, n)
  }

  /** The handles whose table entries the destructors of `dead` remove. */
  function HandlesOf(nodes: map<NodeId, Node>, dead: set<NodeId>): set<string>
  {
    set n | n in dead && n in nodes && nodes[n].varobj != "" && nodes[n].hasSession :: nodes[n].varobj
  }

  /** `r` is in nobody's child list, so deleting it leaves no dangling child. */
  ghost predicate Detached(nodes: map<NodeId, Node>, r: NodeId) {
    forall p, i :: p in nodes && 0 <= i < |nodes[p].children| ==> nodes[p].children[i] != r
  }

  /** Subtree members are never below their root. */
  lemma {:induction false} SubtreeAtLeast(nodes: map<NodeId, Node>, root: NodeId, n: NodeId)
    requires ParentsBelow(nodes)
    requires InSubtree(nodes, root, n)
    ensures root <= n
    decreases n
  {
    if n != root {
      SubtreeAtLeast(nodes, root, nodes[n].parent.value);
    }
  }

  /**
   * Subtree membership only depends on parent links: a table with fewer
   * entries and the same parents, closed under parents, agrees with the
   * original on every entry it keeps.
   */
  lemma {:induction false} SubtreeAgree(m1: map<NodeId, Node>, m2: map<NodeId, Node>, root: NodeId, n: NodeId)
    requires ParentsBelow(m1) && ParentsBelow(m2)
    requires forall x :: x in m2 ==> x in m1 && m2[x].parent == m1[x].parent
    requires forall x :: x in m2 && m2[x].parent.Some? ==> m2[x].parent.value in m2
    requires n in m2
    ensures InSubtree(m2, root, n) == InSubtree(m1, root, n)
    decreases n
  {
    if n != root && m2[n].parent.Some? {
      SubtreeAgree(m1, m2, root, m2[n].parent.value);
    }
  }

  /** Deleting a detached subtree, and the handles of its variables, keeps the table well formed. */
  lemma DeleteKeepsWellFormed(nodes: map<NodeId, Node>, mapping: map<string, NodeId>, bound: nat, r: NodeId)
    requires WellFormed(nodes, mapping, bound)
    requires Detached(nodes, r)
    ensures WellFormed(nodes - Subtree(nodes, r), mapping - HandlesOf(nodes, Subtree(nodes, r)), bound)
  {
    var dead := Subtree(nodes, r);
    var m := nodes - dead;
    var mp := mapping - HandlesOf(nodes, dead);
    forall n | n in m && m[n].parent.Some?
      ensures m[n].parent.value in m
    {
      var p := m[n].parent.value;
      if p in dead {
        assert InSubtree(nodes, r, n);
      }
    }
  }

  /** Changing fields other than the links, the handle, the session and top-levelness keeps the table well formed. */
  lemma FieldUpdateKeepsWellFormed(nodes: map<NodeId, Node>, mapping: map<string, NodeId>, bound: nat, id: NodeId, n: Node)
    requires WellFormed(nodes, mapping, bound)
    requires id in nodes
    requires n.parent == nodes[id].parent && n.children == nodes[id].children && n.topLevel == nodes[id].topLevel
    requires n.varobj == nodes[id].varobj && n.hasSession == nodes[id].hasSession
    ensures WellFormed(nodes[id := n], mapping, bound)
  {
    var m := nodes[id := n];
    assert forall x :: x in m ==> m[x].parent == nodes[x].parent && m[x].children == nodes[x].children;
  }

  // ---------------------------------------------------------------------------
  // Specification of pruning and growing a child list

  function Kept(len: nat, keep: nat): nat {
    if keep < len then keep else len
  }

  /** The variables deleted when the children `kids[k..]` are removed: their subtrees. */
  ghost function DeadFrom(nodes: map<NodeId, Node>, kids: seq<NodeId>, k: nat): set<NodeId>
    decreases |kids| - k
  {
    if k >= |kids| then {} else Subtree(nodes, kids[k]) + DeadFrom(nodes, kids, k + 1)
  }

  /** The table after `id`'s children are popped from the end until at most `keep` remain. */
  ghost function Pruned(nodes: map<NodeId, Node>, id: NodeId, keep: nat): map<NodeId, Node>
    requires id in nodes
  {
    var kids := nodes[id].children;
    var k := Kept(|kids|, keep);
    (nodes - DeadFrom(nodes, kids, k))[id := nodes[id].(children := kids[..k])]
  }

  ghost function PrunedMapping(nodes: map<NodeId, Node>, mapping: map<string, NodeId>, id: NodeId, keep: nat): map<string, NodeId>
    requires id in nodes
  {
    var kids := nodes[id].children;
    mapping - HandlesOf(nodes, DeadFrom(nodes, kids, Kept(|kids|, keep)))
  }

  /** The table after createChild has appended a node for each of `infos[..n]`, numbered from `start`. */
  ghost function Grown(nodes: map<NodeId, Node>, id: NodeId, infos: seq<ChildInfo>, n: nat, start: nat): (r: map<NodeId, Node>)
    requires id in nodes && n <= |infos|
    ensures id in r
    decreases n
  {
    if n == 0 then nodes
    else
      var prev := Grown(nodes, id, infos, n - 1, start);
      var k := start + n - 1;
      prev[k := ChildNode(id, infos[n - 1])][id := prev[id].(children := prev[id].children + [k])]
  }

  /** The handle table after the same appends: each new handle maps to its new node, later ones winning. */
  ghost function Registered(mapping: map<string, NodeId>, infos: seq<ChildInfo>, n: nat, start: nat): map<string, NodeId>
    requires n <= |infos|
    decreases n
  {
    if n == 0 then mapping
    else Registered(mapping, infos, n - 1, start)[infos[n - 1].name := start + n - 1]
  }

  /** The re-queries the fetch handler sends for the pseudo-children among the first `n` children, in order. */
  ghost function Requeries(cs: seq<ChildInfo>, n: nat, join: FetchJoin): seq<SessionCommand>
    requires n <= |cs|
    decreases n
  {
    if n == 0 then []
    else
      Requeries(cs, n - 1, join)
      + (if IsAccessSpecifier(cs[n - 1].exp) then [VarListAccessChildren(cs[n - 1].name, join)] else [])
  }

  /** The debugger session as seen by its variables: state, handle table, variables and outgoing commands. */
  class VariableSession {
    var state: DebuggerState
    var shuttingDown: bool
    var nodes: map<NodeId, Node>
    var mapping: map<string, NodeId>
    var commands: seq<SessionCommand>
    var events: seq<VariableEvent>
    var nextNode: nat
    var nextVarId: nat
    const fetchStep: int

    ghost predicate Valid()
      reads this
    {
      WellFormed(nodes, mapping, nextNode)
    }

    constructor (state: DebuggerState, fetchStep: int)
      ensures Valid()
      ensures this.state == state && !shuttingDown && this.fetchStep == fetchStep
      ensures nodes == map[] && mapping == map[] && commands == [] && events == []
      ensures nextNode == 0 && nextVarId == 0
    {
      this.state := state;
      shuttingDown := false;
      this.fetchStep := fetchStep;
      nodes := map[];
      mapping := map[];
      commands := [];
      events := [];
      nextNode := 0;
      nextVarId := 0;
    }

    /** The session moves to another debugger state or starts shutting down. */
    method SetState(s: DebuggerState, down: bool)
      requires Valid()
      modifies this
      ensures Valid()
      ensures state == s && shuttingDown == down
      ensures nodes == old(nodes) && mapping == old(mapping) && commands == old(commands)
      ensures events == old(events) && nextNode == old(nextNode) && nextVarId == old(nextVarId)
    {
      state := s;
      shuttingDown := down;
    }

    /** sessionIsAlive for the variable `id`. */
    function SessionIsAlive(id: NodeId): (r: bool)
      reads this
      requires id in nodes
      ensures r <==> nodes[id].hasSession && state != NotStartedState && state != EndedState && !shuttingDown
    {
      Alive(nodes[id].hasSession, state, shuttingDown)
    }

    /** A top-level variable (a watch or a local) is created by the variable controller. */
    method AddVariable(expression: string, hasSession: bool) returns (id: NodeId)
      requires Valid()
      modifies this
      ensures Valid()
      ensures id == old(nextNode) && id !in old(nodes) && nextNode == old(nextNode) + 1
      ensures nodes == old(nodes)[id := TopLevelNode(expression, hasSession)]
      ensures mapping == old(mapping) && commands == old(commands) && events == old(events)
      ensures state == old(state) && shuttingDown == old(shuttingDown) && nextVarId == old(nextVarId)
    {
      id := nextNode;
      nodes := nodes[id := TopLevelNode(expression, hasSession)];
      nextNode := nextNode + 1;
    }

    /**
     * The plain setters of the Variable and TreeItem base classes (setInScope,
     * setHasMore, setType, setValue, setChanged, setShowError, the stored
     * format, the view's expanded flag): replace the fields of `id` other
     * than its links, its handle, its session and its top-levelness.
     */
    method SetFields(id: NodeId, n: Node)
      requires Valid() && id in nodes
      requires n.parent == nodes[id].parent && n.children == nodes[id].children && n.topLevel == nodes[id].topLevel
      requires n.varobj == nodes[id].varobj && n.hasSession == nodes[id].hasSession
      modifies this
      ensures Valid() && nodes == old(nodes)[id := n]
      ensures mapping == old(mapping) && commands == old(commands) && events == old(events)
      ensures state == old(state) && shuttingDown == old(shuttingDown)
      ensures nextNode == old(nextNode) && nextVarId == old(nextVarId)
    {
      FieldUpdateKeepsWellFormed(nodes, mapping, nextNode, id, n);
      nodes := nodes[id := n];
    }

    /** addCommand: queue a command for the debugger. */
    method AddCommand(c: SessionCommand)
      requires Valid()
      modifies this
      ensures Valid() && commands == old(commands) + [c]
      ensures nodes == old(nodes) && mapping == old(mapping) && events == old(events)
      ensures state == old(state) && shuttingDown == old(shuttingDown)
      ensures nextNode == old(nextNode) && nextVarId == old(nextVarId)
    {
      commands := commands + [c];
    }

    /**
     * setVarobj: with no session nothing happens; otherwise a previous
     * handle is unregistered, the new one stored and mapped to this variable.
     */
    method SetVarobj(id: NodeId, v: string)
      requires Valid() && id in nodes
      modifies this
      ensures Valid()
      ensures !old(nodes)[id].hasSession ==> nodes == old(nodes) && mapping == old(mapping)
      ensures old(nodes)[id].hasSession ==>
                nodes == old(nodes)[id := old(nodes)[id].(varobj := v)] &&
                mapping == (if old(nodes)[id].varobj != "" then old(mapping) - {old(nodes)[id].varobj}
                            else old(mapping))[v := id]
      ensures commands == old(commands) && events == old(events) && state == old(state)
      ensures shuttingDown == old(shuttingDown) && nextNode == old(nextNode) && nextVarId == old(nextVarId)
    {
      if !nodes[id].hasSession {
        return;
      }
      RebindKeepsWellFormed(nodes, mapping, nextNode, id, v);
      if nodes[id].varobj != "" {
        mapping := mapping - {nodes[id].varobj};
      }
      nodes := nodes[id := nodes[id].(varobj := v)];
      mapping := mapping[v := id];
    }

    /**
     * The destructor of a top-level variable and of everything below it:
     * a remote VarDelete for the root if it has a handle, is top-level and
     * the session is alive; the table entries of every deleted handle go.
     */
    method Destroy(id: NodeId)
      requires Valid() && id in nodes && nodes[id].parent.None?
      modifies this
      ensures Valid()
      ensures nodes == old(nodes) - Subtree(old(nodes), id)
      ensures mapping == old(mapping) - HandlesOf(old(nodes), Subtree(old(nodes), id))
      ensures commands == old(commands) +
                (if old(nodes)[id].varobj != "" && old(nodes)[id].topLevel &&
                    Alive(old(nodes)[id].hasSession, old(state), old(shuttingDown))
                 then [VarDelete(old(nodes)[id].varobj)] else [])
      ensures events == old(events) && state == old(state) && shuttingDown == old(shuttingDown)
      ensures nextNode == old(nextNode) && nextVarId == old(nextVarId)
    {
      var n := nodes[id];
      if n.varobj != "" {
        if n.topLevel {
          if SessionIsAlive(id) {
            commands := commands + [VarDelete(n.varobj)];
          }
        }
        if n.hasSession {
          mapping := mapping - {n.varobj};
        }
      }
      // the child variables' destructors run after this one
      var dead := Subtree(nodes, id);
      assert id in dead;
      DeleteKeepsWellFormed(nodes, old(mapping), nextNode, id);
      mapping := mapping - HandlesOf(nodes, dead);
      nodes := nodes - dead;
    }

    /**
     * The `while (childCount() > nc)` loop of handleUpdate, and
     * deleteChildren with `keep == 0`: remove the last child and delete it
     * with its subtree until at most `keep` children remain.
     */
    method PruneChildren(id: NodeId, keep: nat)
      requires Valid() && id in nodes
      modifies this
      ensures Valid() && id in nodes
      ensures nodes == Pruned(old(nodes), id, keep)
      ensures mapping == PrunedMapping(old(nodes), old(mapping), id, keep)
      ensures commands == old(commands) && events == old(events) && state == old(state)
      ensures shuttingDown == old(shuttingDown) && nextNode == old(nextNode) && nextVarId == old(nextVarId)
    {
      ghost var kids := nodes[id].children;
      var ns: map<NodeId, Node>, mp: map<string, NodeId>, bound: nat := nodes, mapping, nextNode;
      PruneStart(ns, mp, id);
      while |ns[id].children| > keep
        modifies {}
        invariant WellFormed(ns, mp, bound) && id in ns
        invariant Kept(|kids|, keep) <= |ns[id].children| <= |kids|
        invariant PruneInv(old(nodes), old(mapping), id, ns, mp, |ns[id].children|)
        decreases |ns[id].children|
      {
        ns, mp := PruneLast(old(nodes), old(mapping), ns, mp, bound, id);
      }
      nodes, mapping := ns, mp;
    }

  /**
     * createChild: with no session nothing is created; otherwise a
     * non-top-level child bound to the reported handle is appended as the
     * last child of `id`.
     */
    method CreateChild(id: NodeId, info: ChildInfo) returns (r: Option<NodeId>)
      requires Valid() && id in nodes
      modifies this
      ensures Valid() && id in nodes
      ensures !old(nodes)[id].hasSession ==>
                r.None? && nodes == old(nodes) && mapping == old(mapping) && nextNode == old(nextNode)
      ensures old(nodes)[id].hasSession ==>
                r == Some(old(nextNode)) && nextNode == old(nextNode) + 1 &&
                nodes == old(nodes)[old(nextNode) := ChildNode(id, info)]
                           [id := old(nodes)[id].(children := old(nodes)[id].children + [old(nextNode)])] &&
                mapping == old(mapping)[info.name := old(nextNode)]
      ensures commands == old(commands) && events == old(events) && state == old(state)
      ensures shuttingDown == old(shuttingDown) && nextVarId == old(nextVarId)
    {
      if !nodes[id].hasSession {
        return None;
      }
      var k := nextNode;
      nextNode := nextNode + 1;
      nodes := nodes[k := ChildNode(id, info)];
      mapping := mapping[info.name := k];
      nodes := nodes[id := nodes[id].(children := nodes[id].children + [k])];
      r := Some(k);
      GrowKeepsWellFormed(old(nodes), old(mapping), old(nextNode), id, info);
    }

    /**
     * attachMaybe: a variable without a handle, while a debug controller
     * exists, takes the current session; if that session is alive a
     * VarCreate with the next id is sent.
     */
    method AttachMaybe(id: NodeId, controllerPresent: bool, currentSession: bool, quoted: string, hasCallback: bool)
      requires Valid() && id in nodes
      modifies this
      ensures Valid()
      ensures old(nodes)[id].varobj != "" || !controllerPresent ==>
                nodes == old(nodes) && commands == old(commands) && nextVarId == old(nextVarId)
      ensures old(nodes)[id].varobj == "" && controllerPresent ==>
                nodes == old(nodes)[id := old(nodes)[id].(hasSession := currentSession)] &&
                (if Alive(currentSession, state, shuttingDown)
                 then commands == old(commands) + [VarCreate(old(nextVarId), quoted, id, hasCallback)] &&
                      nextVarId == old(nextVarId) + 1
                 else commands == old(commands) && nextVarId == old(nextVarId))
      ensures mapping == old(mapping) && events == old(events) && state == old(state)
      ensures shuttingDown == old(shuttingDown) && nextNode == old(nextNode)
    {
      if nodes[id].varobj != "" {
        return;
      }
      if !controllerPresent {
        // happens on shutdown
        return;
      }
      AttachKeepsWellFormed(nodes, mapping, nextNode, id, currentSession);
      nodes := nodes[id := nodes[id].(hasSession := currentSession)];
      if SessionIsAlive(id) {
        commands := commands + [VarCreate(nextVarId, quoted, id, hasCallback)];
        nextVarId := nextVarId + 1;
      }
    }
    /**
     * fetchMoreChildren: when the session is alive, ask for the children
     * from the current child count up to `fetchStep` more, answered through
     * a fresh join handler.
     */
    method FetchMoreChildren(id: NodeId) returns (join: Option<FetchJoin>)
      requires Valid() && id in nodes
      modifies this
      ensures Valid()
      ensures nodes == old(nodes) && mapping == old(mapping) && events == old(events) && state == old(state)
      ensures shuttingDown == old(shuttingDown) && nextNode == old(nextNode) && nextVarId == old(nextVarId)
      ensures SessionIsAlive(id) ==>
                join.Some? && fresh(join.value) && join.value.Valid() && join.value.node == id &&
                join.value.active == 1 && !join.value.finished &&
                commands == old(commands) + [VarListChildren(nodes[id].varobj, |nodes[id].children|,
                                                             |nodes[id].children| + fetchStep, join.value)]
      ensures !SessionIsAlive(id) ==> join.None? && commands == old(commands)
    {
      var c := |nodes[id].children|;
      if SessionIsAlive(id) {
        var j := new FetchJoin(id);
        commands := commands + [VarListChildren(nodes[id].varobj, c, c + fetchStep, j)];
        join := Some(j);
      } else {
        join := None;
      }
    }

    /** The format field itself. */
    method StoreFormat(c: NodeId, f: Format)
      requires Valid() && c in nodes
      modifies this
      ensures Valid() && nodes == old(nodes)[c := old(nodes)[c].(format := f)]
      ensures mapping == old(mapping) && commands == old(commands) && events == old(events)
      ensures state == old(state) && shuttingDown == old(shuttingDown)
      ensures nextNode == old(nextNode) && nextVarId == old(nextVarId)
    {
      SetFields(c, nodes[c].(format := f));
    }

    /**
     * Variable::setFormat (base class, not part of this model), assumed to
     * store a format that differs from the current one and then call
     * formatChanged.
     */
    method SetFormat(c: NodeId, f: Format)
      requires Valid() && c in nodes
      modifies this
      decreases nextNode - c, 1
      ensures Valid() && FormatsOnly(old(nodes), nodes) && nodes[c].format == f
      ensures OutsideSame(old(nodes), nodes, c)
      ensures FormatCommands(old(commands), commands, old(nodes), c)
      ensures old(nodes)[c].format == f ==> nodes == old(nodes) && commands == old(commands)
      ensures mapping == old(mapping) && events == old(events) && state == old(state)
      ensures shuttingDown == old(shuttingDown) && nextNode == old(nextNode) && nextVarId == old(nextVarId)
    {
      if nodes[c].format == f {
        return;
      }
      StoreFormat(c, f);
      FormatsOnlyStep(old(nodes), c, f);
      ghost var mid := nodes;
      FormatChanged(c);
      FormatsOnlyTrans(old(nodes), mid, nodes, c);
      FormatCommandsTransfer(old(nodes), mid, old(commands), commands, c);
    }

    /**
     * formatChanged: a variable with children passes its format on to each
     * of them and sends nothing itself; a leaf asks the debugger to
     * re-format its value when the session is alive.
     */
    method FormatChanged(id: NodeId)
      requires Valid() && id in nodes
      modifies this
      decreases nextNode - id, 0
      ensures Valid() && FormatsOnly(old(nodes), nodes) && nodes[id] == old(nodes)[id]
      ensures OutsideSame(old(nodes), nodes, id)
      ensures forall i :: 0 <= i < |old(nodes)[id].children| ==>
                nodes[old(nodes)[id].children[i]].format == old(nodes)[id].format
      ensures FormatCommands(old(commands), commands, old(nodes), id)
      ensures |old(nodes)[id].children| > 0 ==> forall k :: |old(commands)| <= k < |commands| ==> !Reformats(commands[k], id)
      ensures |old(nodes)[id].children| == 0 ==>
                nodes == old(nodes) &&
                commands == old(commands) +
                  (if SessionIsAlive(id) then [VarSetFormat(nodes[id].varobj, nodes[id].format, id)] else [])
      ensures mapping == old(mapping) && events == old(events) && state == old(state)
      ensures shuttingDown == old(shuttingDown) && nextNode == old(nextNode) && nextVarId == old(nextVarId)
    {
      var kids := nodes[id].children;
      if |kids| == 0 {
        if SessionIsAlive(id) {
          commands := commands + [VarSetFormat(nodes[id].varobj, nodes[id].format, id)];
        }
        return;
      }
      var f := nodes[id].format;
      var i := 0;
      while i < |kids|
        invariant 0 <= i <= |kids|
        invariant Valid() && FormatsOnly(old(nodes), nodes) && id in nodes && nodes[id] == old(nodes)[id]
        invariant OutsideSame(old(nodes), nodes, id)
        invariant forall j :: 0 <= j < i ==> nodes[kids[j]].format == f
        invariant FormatCommands(old(commands), commands, old(nodes), id)
        invariant forall k :: |old(commands)| <= k < |commands| ==> !Reformats(commands[k], id)
        invariant mapping == old(mapping) && events == old(events) && state == old(state)
        invariant shuttingDown == old(shuttingDown) && nextNode == old(nextNode) && nextVarId == old(nextVarId)
      {
        ghost var before, cmds := nodes, commands;
        ChildAbove(nodes, mapping, nextNode, id, i);
        SetFormat(kids[i], f);
        SiblingStep(old(nodes), before, nodes, id, i, f);
        SiblingCommands(old(nodes), before, old(commands), cmds, commands, id, i);
        NoSelfCommands(old(commands), cmds, commands, before, kids[i], id);
        i := i + 1;
      }
    }

    /** The handler of -var-set-format: a reported value replaces the shown one. */
    method HandleSetFormatReply(id: NodeId, value: Option<string>)
      requires Valid()
      modifies this
      ensures Valid()
      ensures id in old(nodes) && value.Some? ==>
                nodes == old(nodes)[id := old(nodes)[id].(value := FormatValue(value.value))]
      ensures !(id in old(nodes) && value.Some?) ==> nodes == old(nodes)
      ensures mapping == old(mapping) && commands == old(commands) && events == old(events)
      ensures state == old(state) && shuttingDown == old(shuttingDown)
      ensures nextNode == old(nextNode) && nextVarId == old(nextVarId)
    {
      if id in nodes && value.Some? {
        SetFields(id, nodes[id].(value := FormatValue(value.value)));
      }
    }

    /** Record a callback or signal fired towards the views. */
    method AddEvent(e: VariableEvent)
      requires Valid()
      modifies this
      ensures Valid() && events == old(events) + [e]
      ensures nodes == old(nodes) && mapping == old(mapping) && commands == old(commands)
      ensures state == old(state) && shuttingDown == old(shuttingDown)
      ensures nextNode == old(nextNode) && nextVarId == old(nextVarId)
    {
      events := events + [e];
    }

    /**
     * The handler of -var-create. A reply for a variable that is gone is
     * ignored. Otherwise the children are deleted and the variable is in
     * scope; an error reply marks it as showing an error, a good one binds
     * the reported handle and takes the type, value and hasMore, fetches
     * children of an expanded variable with children and re-applies a
     * non-natural format. The callback, when there is one, learns whether a
     * value was reported.
     */
    method HandleCreateReply(id: NodeId, reply: CreateReply, hasCallback: bool) returns (join: Option<FetchJoin>)
      requires Valid()
      modifies this
      ensures Valid()
      ensures id !in old(nodes) ==>
                join.None? && nodes == old(nodes) && mapping == old(mapping) &&
                commands == old(commands) && events == old(events)
      ensures id in old(nodes) ==>
                var n := old(nodes)[id];
                var pm := PrunedMapping(old(nodes), old(mapping), id, 0);
                var alive := Alive(n.hasSession, state, shuttingDown);
                var fetch := !reply.isError && n.expanded && reply.numchild != 0 && alive;
                var reformat := !reply.isError && n.format != Natural && alive;
                nodes == Pruned(old(nodes), id, 0)[id := Created(n, reply)] &&
                mapping == (if !reply.isError && n.hasSession
                            then (if n.varobj != "" then pm - {n.varobj} else pm)[reply.name := id]
                            else pm) &&
                (fetch ==> join.Some? && fresh(join.value) && join.value.Valid() && join.value.node == id &&
                           join.value.active == 1 && !join.value.finished) &&
                (!fetch ==> join.None?) &&
                commands == old(commands) +
                  (if fetch then [VarListChildren(reply.name, 0, fetchStep, join.value)] else []) +
                  (if reformat then [VarSetFormat(reply.name, n.format, id)] else []) &&
                events == old(events) + (if hasCallback then [CreateCallback(id, !reply.isError && reply.value != "")] else [])
      ensures state == old(state) && shuttingDown == old(shuttingDown)
      ensures nextNode == old(nextNode) && nextVarId == old(nextVarId)
    {
      join := None;
      if id !in nodes {
        return;
      }
      ClearForReply(id);
      ghost var cleared := nodes;
      join := TakeCreateReply(id, reply);
      var hasValue := !reply.isError && reply.value != "";
      ReUpdate(Pruned(old(nodes), id, 0), id, cleared[id], nodes[id]);
      if hasCallback {
        AddEvent(CreateCallback(id, hasValue));
      }
    }

    /** The start of the -var-create handler: the children are deleted and the variable is in scope. */
    method ClearForReply(id: NodeId)
      requires Valid() && id in nodes
      modifies this
      ensures Valid() && id in nodes
      ensures nodes == Pruned(old(nodes), id, 0)[id := old(nodes)[id].(children := [], inScope := true)]
      ensures mapping == PrunedMapping(old(nodes), old(mapping), id, 0)
      ensures commands == old(commands) && events == old(events) && state == old(state)
      ensures shuttingDown == old(shuttingDown) && nextNode == old(nextNode) && nextVarId == old(nextVarId)
    {
      PruneChildren(id, 0);
      ghost var pruned := nodes;
      SetFields(id, nodes[id].(inScope := true));
      ReUpdate(old(nodes) - DeadFrom(old(nodes), old(nodes)[id].children, 0), id, pruned[id], nodes[id]);
    }

    /** The error and success branches of the -var-create handler, on a variable whose children are gone. */
    method TakeCreateReply(id: NodeId, reply: CreateReply) returns (join: Option<FetchJoin>)
      requires Valid() && id in nodes && nodes[id].children == []
      modifies this
      ensures Valid() && nodes == old(nodes)[id := Answered(old(nodes)[id], reply)]
      ensures var n := old(nodes)[id];
              mapping == (if !reply.isError && n.hasSession
                          then (if n.varobj != "" then old(mapping) - {n.varobj} else old(mapping))[reply.name := id]
                          else old(mapping))
      ensures var n := old(nodes)[id];
              var alive := Alive(n.hasSession, state, shuttingDown);
              var fetch := !reply.isError && n.expanded && reply.numchild != 0 && alive;
              var reformat := !reply.isError && n.format != Natural && alive;
              (fetch ==> join.Some? && fresh(join.value) && join.value.Valid() && join.value.node == id &&
                         join.value.active == 1 && !join.value.finished) &&
              (!fetch ==> join.None?) &&
              commands == old(commands) +
                (if fetch then [VarListChildren(reply.name, 0, fetchStep, join.value)] else []) +
                (if reformat then [VarSetFormat(reply.name, n.format, id)] else [])
      ensures events == old(events) && state == old(state) && shuttingDown == old(shuttingDown)
      ensures nextNode == old(nextNode) && nextVarId == old(nextVarId)
    {
      if reply.isError {
        SetFields(id, nodes[id].(showError := true));
        join := None;
      } else {
        join := CreateSucceeded(id, reply);
      }
    }

    /** The handle, hasMore, type and value a good -var-create reply gives the variable. */
    method BindReply(id: NodeId, reply: CreateReply)
      requires Valid() && id in nodes
      modifies this
      ensures Valid() && nodes == old(nodes)[id := Bound(old(nodes)[id], reply)]
      ensures var n := old(nodes)[id];
              mapping == (if n.hasSession
                          then (if n.varobj != "" then old(mapping) - {n.varobj} else old(mapping))[reply.name := id]
                          else old(mapping))
      ensures commands == old(commands) && events == old(events) && state == old(state)
      ensures shuttingDown == old(shuttingDown) && nextNode == old(nextNode) && nextVarId == old(nextVarId)
    {
      SetVarobj(id, reply.name);
      ghost var mid := nodes;
      SetFields(id, nodes[id].(hasMore := CreateHasMore(reply), typ := reply.typ, value := FormatValue(reply.value)));
      ReUpdate(old(nodes), id, mid[id], nodes[id]);
    }

    /** The success branch of the -var-create handler, on a variable whose children are gone. */
    method CreateSucceeded(id: NodeId, reply: CreateReply) returns (join: Option<FetchJoin>)
      requires Valid() && id in nodes && nodes[id].children == []
      modifies this
      ensures Valid() && nodes == old(nodes)[id := Bound(old(nodes)[id], reply)]
      ensures var n := old(nodes)[id];
              mapping == (if n.hasSession
                          then (if n.varobj != "" then old(mapping) - {n.varobj} else old(mapping))[reply.name := id]
                          else old(mapping))
      ensures var n := old(nodes)[id];
              var alive := Alive(n.hasSession, state, shuttingDown);
              var fetch := n.expanded && reply.numchild != 0 && alive;
              var reformat := n.format != Natural && alive;
              (fetch ==> join.Some? && fresh(join.value) && join.value.Valid() && join.value.node == id &&
                         join.value.active == 1 && !join.value.finished) &&
              (!fetch ==> join.None?) &&
              commands == old(commands) +
                (if fetch then [VarListChildren(reply.name, 0, fetchStep, join.value)] else []) +
                (if reformat then [VarSetFormat(reply.name, n.format, id)] else [])
      ensures events == old(events) && state == old(state) && shuttingDown == old(shuttingDown)
      ensures nextNode == old(nextNode) && nextVarId == old(nextVarId)
    {
      BindReply(id, reply);
      join := None;
      if nodes[id].expanded && reply.numchild != 0 {
        join := FetchMoreChildren(id);
      }
      ReapplyFormat(id);
    }

    /** A non-natural format is sent again for a variable without children. */
    method ReapplyFormat(id: NodeId)
      requires Valid() && id in nodes && nodes[id].children == []
      modifies this
      ensures Valid() && nodes == old(nodes)
      ensures commands == old(commands) +
                (if nodes[id].format != Natural && SessionIsAlive(id)
                 then [VarSetFormat(nodes[id].varobj, nodes[id].format, id)] else [])
      ensures mapping == old(mapping) && events == old(events) && state == old(state)
      ensures shuttingDown == old(shuttingDown) && nextNode == old(nextNode) && nextVarId == old(nextVarId)
    {
      if nodes[id].format != Natural {
        FormatChanged(id);
      }
    }

    /**
     * handleUpdate: apply one changed variable of a -var-update reply. A
     * changed type deletes the children, guesses hasMore from the new child
     * count and fetches again. Out of scope, only the scope flag changes.
     * In scope, a new child count pops children from the end down to it,
     * new children are created (when there is a session), the new type, the
     * value and hasMore are taken and the variable is marked changed.
     */
    method HandleUpdate(id: NodeId, u: UpdateInfo) returns (join: Option<FetchJoin>)
      requires Valid() && id in nodes
      modifies this
      ensures Valid()
      ensures var r := Updated(old(nodes), old(mapping), id, u, old(nextNode));
              nodes == r.0 && mapping == r.1
      ensures nextNode == old(nextNode) + (if UpdateCreates(old(nodes)[id], u) then |u.newChildren.value| else 0)
      ensures var fetch := TypeChanged(u) && Alive(old(nodes)[id].hasSession, state, shuttingDown);
              (fetch ==> join.Some? && fresh(join.value) && join.value.Valid() && join.value.node == id &&
                         join.value.active == 1 && !join.value.finished &&
                         commands == old(commands) + [VarListChildren(old(nodes)[id].varobj, 0, fetchStep, join.value)]) &&
              (!fetch ==> join.None? && commands == old(commands))
      ensures events == old(events) && state == old(state) && shuttingDown == old(shuttingDown)
      ensures nextVarId == old(nextVarId)
    {
      join := RetypeForUpdate(id, u);
      if OutOfScope(u) {
        SetFields(id, nodes[id].(inScope := false));
      } else {
        UpdateInScope(id, u);
      }
    }

    /** The type-changed step of handleUpdate. */
    method RetypeForUpdate(id: NodeId, u: UpdateInfo) returns (join: Option<FetchJoin>)
      requires Valid() && id in nodes
      modifies this
      ensures Valid()
      ensures var r := Retyped(old(nodes), old(mapping), id, u);
              nodes == r.0 && mapping == r.1
      ensures var fetch := TypeChanged(u) && Alive(old(nodes)[id].hasSession, state, shuttingDown);
              (fetch ==> join.Some? && fresh(join.value) && join.value.Valid() && join.value.node == id &&
                         join.value.active == 1 && !join.value.finished &&
                         commands == old(commands) + [VarListChildren(old(nodes)[id].varobj, 0, fetchStep, join.value)]) &&
              (!fetch ==> join.None? && commands == old(commands))
      ensures events == old(events) && state == old(state) && shuttingDown == old(shuttingDown)
      ensures nextNode == old(nextNode) && nextVarId == old(nextVarId)
    {
      join := None;
      if TypeChanged(u) {
        PruneChildren(id, 0);
        SetFields(id, nodes[id].(hasMore := u.newNumChildren.GetOr(0) != 0));
        join := FetchMoreChildren(id);
      }
    }

    /** The in-scope branch of handleUpdate. */
    method UpdateInScope(id: NodeId, u: UpdateInfo)
      requires Valid() && id in nodes && !OutOfScope(u)
      modifies this
      ensures Valid()
      ensures var r := InScopeUpdated(old(nodes), old(mapping), id, u, old(nextNode));
              nodes == r.0 && mapping == r.1
      ensures nextNode == old(nextNode) + (if UpdateCreates(old(nodes)[id], u) then |u.newChildren.value| else 0)
      ensures commands == old(commands) && events == old(events) && state == old(state)
      ensures shuttingDown == old(shuttingDown) && nextVarId == old(nextVarId)
    {
      TrimForUpdate(id, u);
      if u.newChildren.Some? && nodes[id].hasSession {
        AppendChildren(id, u.newChildren.value);
      }
      SetFields(id, nodes[id].(typ := if TypeChanged(u) then u.newType else nodes[id].typ,
                               value := FormatValue(u.value), changed := true, hasMore := Flag(u.hasMore)));
    }

    /** The scope and child-count steps of the in-scope branch of handleUpdate. */
    method TrimForUpdate(id: NodeId, u: UpdateInfo)
      requires Valid() && id in nodes
      modifies this
      ensures Valid()
      ensures var r := Trimmed(old(nodes), old(mapping), id, u);
              nodes == r.0 && mapping == r.1
      ensures commands == old(commands) && events == old(events) && state == old(state)
      ensures shuttingDown == old(shuttingDown) && nextNode == old(nextNode) && nextVarId == old(nextVarId)
    {
      SetFields(id, nodes[id].(inScope := true));
      if u.newNumChildren.Some? {
        SetFields(id, nodes[id].(hasMore := false));
        PruneChildren(id, u.newNumChildren.value);
      }
    }

    /** The createChild loop of handleUpdate stands after the first `i` children of `cs`. */
    ghost predicate AppendedUpTo(id: NodeId, cs: seq<ChildInfo>, i: nat, n0: map<NodeId, Node>,
                                 m0: map<string, NodeId>, start: nat)
      reads this
    {
      i <= |cs| && Valid() && id in nodes && nodes[id].hasSession && id in n0 &&
      nodes == Grown(n0, id, cs, i, start) && mapping == Registered(m0, cs, i, start) && nextNode == start + i
    }

    /** The createChild loop of handleUpdate over the `new_children` of an entry. */
    method AppendChildren(id: NodeId, cs: seq<ChildInfo>)
      requires Valid() && id in nodes && nodes[id].hasSession
      modifies this
      ensures Valid() && id in nodes
      ensures nodes == Grown(old(nodes), id, cs, |cs|, old(nextNode))
      ensures mapping == Registered(old(mapping), cs, |cs|, old(nextNode))
      ensures nextNode == old(nextNode) + |cs|
      ensures commands == old(commands) && events == old(events) && state == old(state)
      ensures shuttingDown == old(shuttingDown) && nextVarId == old(nextVarId)
    {
      var i := 0;
      while i < |cs|
        invariant AppendedUpTo(id, cs, i, old(nodes), old(mapping), old(nextNode))
        invariant commands == old(commands) && events == old(events) && state == old(state)
        invariant shuttingDown == old(shuttingDown) && nextVarId == old(nextVarId)
      {
        AppendOne(id, cs[i], cs, i, old(nodes), old(mapping), old(nextNode));
        i := i + 1;
      }
    }

    /** One createChild call of a loop that has created the first `i` of `cs`, for `info`, the next of them. */
    method AppendOne(id: NodeId, info: ChildInfo, ghost cs: seq<ChildInfo>, ghost i: nat, ghost n0: map<NodeId, Node>,
                     ghost m0: map<string, NodeId>, ghost start: nat)
      requires i < |cs| && cs[i] == info && AppendedUpTo(id, cs, i, n0, m0, start)
      modifies this
      ensures AppendedUpTo(id, cs, i + 1, n0, m0, start)
      ensures commands == old(commands) && events == old(events) && state == old(state)
      ensures shuttingDown == old(shuttingDown) && nextVarId == old(nextVarId)
    {
      ghost var pre, preM := nodes, mapping;
      var _ := CreateChild(id, info);
      GrowStep(n0, m0, id, cs, i, start, pre, preM, nodes, mapping);
    }
  }

  // ---------------------------------------------------------------------------
  // Format propagation

  /** Two tables that differ at most in the formats of their variables. */
  ghost predicate FormatsOnly(m1: map<NodeId, Node>, m2: map<NodeId, Node>) {
    m1.Keys == m2.Keys && forall x :: x in m1 ==> m2[x] == m1[x].(format := m2[x].format)
  }

  /** Every variable outside the subtree of `root` is untouched. */
  ghost predicate OutsideSame(m1: map<NodeId, Node>, m2: map<NodeId, Node>, root: NodeId) {
    forall x :: x in m1 && !InSubtree(m1, root, x) ==> x in m2 && m2[x] == m1[x]
  }

  /** Only VarSetFormat commands for variables of the subtree of `root` were appended. */
  ghost predicate FormatCommands(c1: seq<SessionCommand>, c2: seq<SessionCommand>, nodes: map<NodeId, Node>, root: NodeId) {
    |c1| <= |c2| && c2[..|c1|] == c1 &&
    forall k :: |c1| <= k < |c2| ==> c2[k].VarSetFormat? && InSubtree(nodes, root, c2[k].target)
  }

  /** Subtree membership only depends on the links, which format changes leave alone. */
  lemma {:induction false} FormatsOnlySubtree(m1: map<NodeId, Node>, m2: map<NodeId, Node>, root: NodeId, x: NodeId)
    requires FormatsOnly(m1, m2)
    ensures InSubtree(m1, root, x) == InSubtree(m2, root, x)
    decreases x
  {
    if x in m1 && x != root && m1[x].parent.Some? && m1[x].parent.value < x {
      assert m2[x].parent == m1[x].parent;
      FormatsOnlySubtree(m1, m2, root, m1[x].parent.value);
    }
  }

  /** Whatever lies below a child lies below its parent. */
  lemma {:induction false} ChildSubtreeWithin(m: map<NodeId, Node>, id: NodeId, c: NodeId, x: NodeId)
    requires id in m && c in m && m[c].parent == Some(id) && id < c
    requires InSubtree(m, c, x)
    ensures InSubtree(m, id, x)
    decreases x
  {
    if x != c {
      ChildSubtreeWithin(m, id, c, m[x].parent.value);
    }
  }

  lemma FormatsOnlyStep(m: map<NodeId, Node>, c: NodeId, f: Format)
    requires c in m
    ensures FormatsOnly(m, m[c := m[c].(format := f)])
  {
  }

  lemma FormatCommandsTransfer(m1: map<NodeId, Node>, m2: map<NodeId, Node>, c1: seq<SessionCommand>,
                               c2: seq<SessionCommand>, root: NodeId)
    requires FormatsOnly(m1, m2) && FormatCommands(c1, c2, m2, root)
    ensures FormatCommands(c1, c2, m1, root)
  {
    forall k | |c1| <= k < |c2|
      ensures InSubtree(m1, root, c2[k].target)
    {
      FormatsOnlySubtree(m1, m2, root, c2[k].target);
    }
  }

  /** The command asks the debugger to re-format the value of `id`. */
  predicate Reformats(cmd: SessionCommand, id: NodeId) {
    cmd.VarSetFormat? && cmd.target == id
  }

  /** A variable below `root` has an id no smaller than the root's. */
  lemma {:induction false} SubtreeAbove(nodes: map<NodeId, Node>, root: NodeId, x: NodeId)
    requires InSubtree(nodes, root, x)
    ensures root <= x
    decreases x
  {
    if x != root {
      SubtreeAbove(nodes, root, nodes[x].parent.value);
    }
  }

  /** The commands a child's format change adds never target its parent. */
  lemma NoSelfCommands(c0: seq<SessionCommand>, cmds: seq<SessionCommand>, cmds2: seq<SessionCommand>,
                       nodes: map<NodeId, Node>, c: NodeId, id: NodeId)
    requires id < c && |c0| <= |cmds|
    requires forall k :: |c0| <= k < |cmds| ==> !Reformats(cmds[k], id)
    requires FormatCommands(cmds, cmds2, nodes, c)
    ensures forall k :: |c0| <= k < |cmds2| ==> !Reformats(cmds2[k], id)
  {
    forall k | |c0| <= k < |cmds2|
      ensures !Reformats(cmds2[k], id)
    {
      if k < |cmds| {
        assert cmds2[k] == cmds2[..|cmds|][k];
      } else {
        SubtreeAbove(nodes, c, cmds2[k].target);
      }
    }
  }

  /** A sibling of `c` is never below `c`. */
  lemma NotBelowSibling(nodes: map<NodeId, Node>, id: NodeId, c: NodeId, y: NodeId)
    requires ParentsBelow(nodes) && y in nodes && nodes[y].parent == Some(id) && y != c && id < c
    ensures !InSubtree(nodes, c, y)
  {
    if InSubtree(nodes, c, y) {
      SubtreeAtLeast(nodes, c, id);
    }
  }

  /** Setting the format of `c` and then of parts of its subtree: the combined effect. */
  lemma FormatsOnlyTrans(m1: map<NodeId, Node>, m2: map<NodeId, Node>, m3: map<NodeId, Node>, c: NodeId)
    requires FormatsOnly(m1, m2) && FormatsOnly(m2, m3) && c in m1
    requires forall x :: x in m1 && x != c ==> m2[x] == m1[x]
    requires OutsideSame(m2, m3, c)
    ensures FormatsOnly(m1, m3) && OutsideSame(m1, m3, c)
  {
    forall x | x in m1 && !InSubtree(m1, c, x)
      ensures m3[x] == m1[x]
    {
      FormatsOnlySubtree(m1, m2, c, x);
    }
  }

  /** A child has a larger id than its parent and a smaller one than the bound. */
  lemma ChildAbove(nodes: map<NodeId, Node>, mapping: map<string, NodeId>, bound: nat, id: NodeId, i: nat)
    requires WellFormed(nodes, mapping, bound) && id in nodes && i < |nodes[id].children|
    ensures var c := nodes[id].children[i]; c in nodes && id < c < bound && nodes[c].parent == Some(id)
  {
  }

  /**
   * Passing the format to the child `kids[i]` keeps what the earlier
   * children received and touches nothing outside the parent's subtree.
   */
  lemma SiblingStep(n0: map<NodeId, Node>, before: map<NodeId, Node>, after: map<NodeId, Node>,
                    id: NodeId, i: nat, f: Format)
    requires ParentsBelow(n0) && ChildrenLinked(n0) && ChildrenDistinct(n0)
    requires id in n0 && i < |n0[id].children|
    requires FormatsOnly(n0, before) && FormatsOnly(before, after) && before[id] == n0[id]
    requires OutsideSame(n0, before, id) && OutsideSame(before, after, n0[id].children[i])
    requires after[n0[id].children[i]].format == f
    requires forall j :: 0 <= j < i ==> before[n0[id].children[j]].format == f
    ensures FormatsOnly(n0, after) && after[id] == n0[id] && OutsideSame(n0, after, id)
    ensures forall j :: 0 <= j < i + 1 ==> after[n0[id].children[j]].format == f
  {
    var kids := n0[id].children;
    var c := kids[i];
    assert id < c;
    forall x | x in before && InSubtree(before, c, x)
      ensures InSubtree(n0, id, x) && x != id
    {
      FormatsOnlySubtree(n0, before, c, x);
      ChildSubtreeWithin(n0, id, c, x);
      SubtreeAtLeast(n0, c, x);
    }
    forall j | 0 <= j < i
      ensures after[kids[j]].format == f
    {
      var y := kids[j];
      FormatsOnlySubtree(n0, before, c, y);
      NotBelowSibling(n0, id, c, y);
    }
    forall x | x in n0 && !InSubtree(n0, id, x)
      ensures after[x] == n0[x]
    {
      FormatsOnlySubtree(n0, before, c, x);
    }
  }

  /** The commands sent for the subtree of the child `kids[i]` are commands for the parent's subtree. */
  lemma SiblingCommands(n0: map<NodeId, Node>, before: map<NodeId, Node>,
                        c0: seq<SessionCommand>, cmds: seq<SessionCommand>, cmds2: seq<SessionCommand>,
                        id: NodeId, i: nat)
    requires ParentsBelow(n0) && ChildrenLinked(n0)
    requires id in n0 && i < |n0[id].children| && FormatsOnly(n0, before)
    requires FormatCommands(c0, cmds, n0, id) && FormatCommands(cmds, cmds2, before, n0[id].children[i])
    ensures FormatCommands(c0, cmds2, n0, id)
  {
    var c := n0[id].children[i];
    forall k | |c0| <= k < |cmds2|
      ensures cmds2[k].VarSetFormat? && InSubtree(n0, id, cmds2[k].target)
    {
      if k < |cmds| {
        assert cmds2[k] == cmds[k];
      } else {
        FormatsOnlySubtree(n0, before, c, cmds2[k].target);
        ChildSubtreeWithin(n0, id, c, cmds2[k].target);
      }
    }
    assert cmds2[..|c0|] == cmds[..|c0|];
  }

  /** The pruning loop's state: the children of `id` from `j` on are gone, with their subtrees and handles. */
  ghost predicate PruneInv(nodes0: map<NodeId, Node>, mapping0: map<string, NodeId>, id: NodeId,
                           nodes: map<NodeId, Node>, mapping: map<string, NodeId>, j: nat)
  {
    id in nodes0 && j <= |nodes0[id].children| &&
    var kids := nodes0[id].children;
    nodes == (nodes0 - DeadFrom(nodes0, kids, j))[id := nodes0[id].(children := kids[..j])] &&
    mapping == mapping0 - HandlesOf(nodes0, DeadFrom(nodes0, kids, j))
  }

  lemma PruneStart(nodes: map<NodeId, Node>, mapping: map<string, NodeId>, id: NodeId)
    requires ParentsBelow(nodes) && id in nodes
    ensures PruneInv(nodes, mapping, id, nodes, mapping, |nodes[id].children|)
  {
    var kids := nodes[id].children;
    assert kids[..|kids|] == kids;
    assert DeadFrom(nodes, kids, |kids|) == {};
    assert HandlesOf(nodes, {}) == {};
    assert (nodes - {})[id := nodes[id]] == nodes;
  }

  /** One iteration of the pruning loop keeps the table well formed and extends the loop's state by one child. */
  lemma PruneIter(nodes0: map<NodeId, Node>, mapping0: map<string, NodeId>, nodes: map<NodeId, Node>,
                  mapping: map<string, NodeId>, bound: nat, id: NodeId, k: nat)
    requires WellFormed(nodes0, mapping0, bound) && WellFormed(nodes, mapping, bound)
    requires id in nodes && k == |nodes[id].children| > 0
    requires PruneInv(nodes0, mapping0, id, nodes, mapping, k)
    ensures var popped := nodes[id := nodes[id].(children := nodes[id].children[..k - 1])];
            ParentsBelow(popped) &&
            var dead := Subtree(popped, nodes[id].children[k - 1]);
            WellFormed(popped - dead, mapping - HandlesOf(popped, dead), bound) &&
            PruneInv(nodes0, mapping0, id, popped - dead, mapping - HandlesOf(popped, dead), k - 1)
  {
    var kids := nodes0[id].children;
    var c := nodes[id].children[k - 1];
    var before := DeadFrom(nodes0, kids, k);
    PopKeepsWellFormed(nodes, mapping, bound, id);
    assert nodes[id].children[..k - 1] == kids[..k - 1];
    var x := nodes0[id].(children := kids[..k]);
    ReUpdate(nodes0 - before, id, x, x.(children := kids[..k - 1]));
    var popped := nodes[id := nodes[id].(children := nodes[id].children[..k - 1])];
    DeleteKeepsWellFormed(popped, mapping, bound, c);
    PruneStep(nodes0, popped, id, kids, k, before);
  }

  /** The body of deleteChildren's loop: detach the last child of `id` and drop its subtree. */
  method PruneLast(ghost nodes0: map<NodeId, Node>, ghost mapping0: map<string, NodeId>, nodes: map<NodeId, Node>,
                   mapping: map<string, NodeId>, ghost bound: nat, id: NodeId)
    returns (nodes': map<NodeId, Node>, mapping': map<string, NodeId>)
    requires WellFormed(nodes0, mapping0, bound) && WellFormed(nodes, mapping, bound)
    requires id in nodes && |nodes[id].children| > 0
    requires PruneInv(nodes0, mapping0, id, nodes, mapping, |nodes[id].children|)
    ensures WellFormed(nodes', mapping', bound) && id in nodes'
    ensures |nodes'[id].children| == |nodes[id].children| - 1
    ensures PruneInv(nodes0, mapping0, id, nodes', mapping', |nodes'[id].children|)
  {
    var k := |nodes[id].children|;
    var c := nodes[id].children[k - 1];
    PruneIter(nodes0, mapping0, nodes, mapping, bound, id, k);
    var popped := nodes[id := nodes[id].(children := nodes[id].children[..k - 1])];
    var dead := Subtree(popped, c);
    mapping' := mapping - HandlesOf(popped, dead);
    nodes' := popped - dead;
  }

  /** Giving a session-bound variable a new handle, and moving the table entry with it, keeps the table well formed. */
  lemma RebindKeepsWellFormed(nodes: map<NodeId, Node>, mapping: map<string, NodeId>, bound: nat, id: NodeId, v: string)
    requires WellFormed(nodes, mapping, bound)
    requires id in nodes && nodes[id].hasSession
    ensures var old0 := nodes[id].varobj;
            WellFormed(nodes[id := nodes[id].(varobj := v)],
                       (if old0 != "" then mapping - {old0} else mapping)[v := id], bound)
  {
    var m := nodes[id := nodes[id].(varobj := v)];
    var old0 := nodes[id].varobj;
    var mp := (if old0 != "" then mapping - {old0} else mapping)[v := id];
    assert forall x :: x in m ==> m[x].parent == nodes[x].parent && m[x].children == nodes[x].children;
    forall h | h in mp && h != ""
      ensures mp[h] in m && m[mp[h]].varobj == h && m[mp[h]].hasSession
    {
      if h != v {
        assert h in mapping && h != old0 && mp[h] == mapping[h];
      }
    }
  }

  /** A variable without a handle can change sessions without breaking the table. */
  lemma AttachKeepsWellFormed(nodes: map<NodeId, Node>, mapping: map<string, NodeId>, bound: nat, id: NodeId, hs: bool)
    requires WellFormed(nodes, mapping, bound)
    requires id in nodes && nodes[id].varobj == ""
    ensures WellFormed(nodes[id := nodes[id].(hasSession := hs)], mapping, bound)
  {
    var m := nodes[id := nodes[id].(hasSession := hs)];
    assert forall x :: x in m ==> m[x].parent == nodes[x].parent && m[x].children == nodes[x].children;
  }

  /** Removing the last child from a list keeps the table well formed and detaches that child. */
  lemma PopKeepsWellFormed(nodes: map<NodeId, Node>, mapping: map<string, NodeId>, bound: nat, id: NodeId)
    requires WellFormed(nodes, mapping, bound)
    requires id in nodes && |nodes[id].children| > 0
    ensures var kids := nodes[id].children;
            var m := nodes[id := nodes[id].(children := kids[..|kids| - 1])];
            WellFormed(m, mapping, bound) && Detached(m, kids[|kids| - 1])
  {
    var kids := nodes[id].children;
    var m := nodes[id := nodes[id].(children := kids[..|kids| - 1])];
    assert forall x :: x in m ==> m[x].parent == nodes[x].parent;
    forall p, i | p in m && 0 <= i < |m[p].children|
      ensures m[p].children[i] in m && m[m[p].children[i]].parent == Some(p)
      ensures m[p].children[i] != kids[|kids| - 1]
    {
      if p == id {
        assert m[p].children[i] == kids[i];
      } else {
        assert m[p].children[i] == nodes[p].children[i];
      }
    }
  }

  /** Appending a fresh child keeps the table well formed. */
  lemma GrowKeepsWellFormed(nodes: map<NodeId, Node>, mapping: map<string, NodeId>, bound: nat, id: NodeId, info: ChildInfo)
    requires WellFormed(nodes, mapping, bound)
    requires id in nodes
    ensures WellFormed(nodes[bound := ChildNode(id, info)][id := nodes[id].(children := nodes[id].children + [bound])],
                       mapping[info.name := bound], bound + 1)
  {
    var m := nodes[bound := ChildNode(id, info)][id := nodes[id].(children := nodes[id].children + [bound])];
    forall p, i | p in m && 0 <= i < |m[p].children|
      ensures m[p].children[i] in m && m[m[p].children[i]].parent == Some(p)
    {
      if p == id && i == |nodes[id].children| {
      } else {
        assert m[p].children[i] == nodes[p].children[i];
      }
    }
    forall p, i, j | p in m && 0 <= i < j < |m[p].children|
      ensures m[p].children[i] != m[p].children[j]
    {
      if p == id && j == |nodes[id].children| {
        assert m[p].children[i] == nodes[p].children[i];
      } else {
        assert m[p].children[i] == nodes[p].children[i];
        assert m[p].children[j] == nodes[p].children[j];
      }
    }
  }

  /** A parent is never in the subtree of one of its children. */
  lemma {:induction false} ParentOutsideDead(nodes: map<NodeId, Node>, id: NodeId, kids: seq<NodeId>, j: nat)
    requires ParentsBelow(nodes) && ChildrenLinked(nodes) && id in nodes && kids == nodes[id].children
    ensures id !in DeadFrom(nodes, kids, j)
    decreases |kids| - j
  {
    if j < |kids| {
      if InSubtree(nodes, kids[j], id) {
        assert nodes[kids[j]].parent == Some(id);
        SubtreeAtLeast(nodes, kids[j], id);
      }
      ParentOutsideDead(nodes, id, kids, j + 1);
    }
  }

  lemma ReUpdate(m: map<NodeId, Node>, id: NodeId, a: Node, b: Node)
    ensures m[id := a][id := b] == m[id := b]
  {
  }

  lemma HandlesUnion(nodes: map<NodeId, Node>, a: set<NodeId>, b: set<NodeId>)
    ensures HandlesOf(nodes, a) + HandlesOf(nodes, b) == HandlesOf(nodes, a + b)
  {
  }

  lemma HandlesAgree(m1: map<NodeId, Node>, m2: map<NodeId, Node>, dead: set<NodeId>)
    requires forall x :: x in dead ==> x in m1 && x in m2 && m1[x] == m2[x]
    ensures HandlesOf(m1, dead) == HandlesOf(m2, dead)
  {
    assert forall h :: h in HandlesOf(m1, dead) ==> h in HandlesOf(m2, dead);
    assert forall h :: h in HandlesOf(m2, dead) ==> h in HandlesOf(m1, dead);
  }

  /** In the table after earlier pops, the popped child's subtree is what remains of its original subtree. */
  lemma PoppedSubtree(nodes0: map<NodeId, Node>, popped: map<NodeId, Node>, c: NodeId, before: set<NodeId>)
    requires ParentsBelow(nodes0) && ParentsBelow(popped)
    requires forall x :: x in popped && popped[x].parent.Some? ==> popped[x].parent.value in popped
    requires popped.Keys == nodes0.Keys - before
    requires forall x :: x in popped ==> popped[x].parent == nodes0[x].parent
    ensures Subtree(popped, c) == Subtree(nodes0, c) - before
  {
    forall x | x in popped
      ensures InSubtree(popped, c, x) == InSubtree(nodes0, c, x)
    {
      SubtreeAgree(nodes0, popped, c, x);
    }
  }

  /**
   * One iteration of the pruning loop: deleting the subtree of the popped
   * child, computed in the current table, extends the deleted set of the
   * original table by exactly that child's subtree.
   */
  lemma PruneStep(nodes0: map<NodeId, Node>, popped: map<NodeId, Node>, id: NodeId, kids: seq<NodeId>, k: nat,
                  before: set<NodeId>)
    requires ParentsBelow(nodes0) && ChildrenLinked(nodes0)
    requires ParentsBelow(popped) && ParentsPresent(popped)
    requires id in nodes0 && 0 < k <= |kids| && kids == nodes0[id].children
    requires before == DeadFrom(nodes0, kids, k)
    requires popped == (nodes0 - before)[id := nodes0[id].(children := kids[..k - 1])]
    ensures popped - Subtree(popped, kids[k - 1]) ==
              (nodes0 - DeadFrom(nodes0, kids, k - 1))[id := nodes0[id].(children := kids[..k - 1])]
    ensures HandlesOf(nodes0, before) + HandlesOf(popped, Subtree(popped, kids[k - 1])) ==
              HandlesOf(nodes0, DeadFrom(nodes0, kids, k - 1))
  {
    var c := kids[k - 1];
    var after := DeadFrom(nodes0, kids, k - 1);
    assert after == Subtree(nodes0, c) + before;
    ParentOutsideDead(nodes0, id, kids, k);
    ParentOutsideDead(nodes0, id, kids, k - 1);
    PoppedSubtree(nodes0, popped, c, before);
    var dead := Subtree(popped, c);
    PruneStepNodes(nodes0, popped, id, kids[..k - 1], before, after, dead);
    HandlesAgree(nodes0, popped, dead);
    HandlesUnion(nodes0, before, dead);
  }

  lemma PruneStepNodes(nodes0: map<NodeId, Node>, popped: map<NodeId, Node>, id: NodeId, rest: seq<NodeId>,
                       before: set<NodeId>, after: set<NodeId>, dead: set<NodeId>)
    requires id in nodes0 && id !in after && dead !! before && dead + before == after
    requires popped.Keys == nodes0.Keys - before
    requires id in popped && popped[id] == nodes0[id].(children := rest)
    requires forall x :: x in popped && x != id ==> popped[x] == nodes0[x]
    ensures popped - dead == (nodes0 - after)[id := nodes0[id].(children := rest)]
  {
    var target := (nodes0 - after)[id := nodes0[id].(children := rest)];
    assert (popped - dead).Keys == target.Keys;
    forall x | x in target ensures (popped - dead)[x] == target[x] {
      if x != id {
        assert target[x] == nodes0[x];
      }
    }
  }

  /** One createChild call extends the table grown so far by the next node. */
  lemma GrowStep(n0: map<NodeId, Node>, m0: map<string, NodeId>, id: NodeId, infos: seq<ChildInfo>, m: nat,
                 start: nat, pre: map<NodeId, Node>, preM: map<string, NodeId>,
                 post: map<NodeId, Node>, postM: map<string, NodeId>)
    requires id in n0 && m < |infos|
    requires pre == Grown(n0, id, infos, m, start) && preM == Registered(m0, infos, m, start)
    requires post == pre[start + m := ChildNode(id, infos[m])][id := pre[id].(children := pre[id].children + [start + m])]
    requires postM == preM[infos[m].name := start + m]
    ensures post == Grown(n0, id, infos, m + 1, start) && postM == Registered(m0, infos, m + 1, start)
  {
  }

  lemma Regroup3(a: seq<SessionCommand>, b: seq<SessionCommand>, c: seq<SessionCommand>)
    ensures a + (b + c) == a + b + c
  {
  }

  /** One more child of a reply: either one more node or one more re-query. */
  lemma ChildStep(cs: seq<ChildInfo>, i: nat, join: FetchJoin)
    requires i < |cs|
    ensures Made(cs, i + 1) == Made(cs, i) + (if IsAccessSpecifier(cs[i].exp) then [] else [cs[i]])
    ensures AccessCount(cs, i + 1) == AccessCount(cs, i) + (if IsAccessSpecifier(cs[i].exp) then 1 else 0)
    ensures Requeries(cs, i + 1, join) ==
              Requeries(cs, i, join) + (if IsAccessSpecifier(cs[i].exp) then [VarListAccessChildren(cs[i].name, join)] else [])
  {
  }

  /** The reference-counted handler joining the replies of one fetchMoreChildren. */
  class FetchJoin {
    const node: NodeId
    var active: int
    var finished: bool
    ghost var replies: nat
    ghost var requeued: nat

    ghost predicate Valid()
      reads this
    {
      active == 1 + requeued - replies && active >= 0 && (finished <==> active == 0)
    }

    constructor (node: NodeId)
      ensures Valid() && this.node == node && active == 1 && !finished && replies == 0 && requeued == 0
    {
      this.node := node;
      active := 1;
      finished := false;
      replies := 0;
      requeued := 0;
    }

    /**
     * The state of the fetch handler's loop after the first `i` children of
     * `cs`: a node made for each non-pseudo child (when the variable has a
     * session), a re-query queued and counted for each pseudo-child.
     */
    ghost predicate Taken(s: VariableSession, cs: seq<ChildInfo>, i: nat, hs: bool, n0: map<NodeId, Node>,
                          m0: map<string, NodeId>, start: nat, c0: seq<SessionCommand>, a0: int, r0: nat)
      reads this, s
    {
      i <= |cs| && |Made(cs, i)| <= |Made(cs, |cs|)| &&
      s.Valid() && node in s.nodes && s.nodes[node].hasSession == hs && node in n0 &&
      (hs ==> s.nodes == Grown(n0, node, Made(cs, |cs|), |Made(cs, i)|, start) &&
              s.mapping == Registered(m0, Made(cs, |cs|), |Made(cs, i)|, start) &&
              s.nextNode == start + |Made(cs, i)|) &&
      (!hs ==> s.nodes == n0 && s.mapping == m0 && s.nextNode == start) &&
      s.commands == c0 + Requeries(cs, i, this) &&
      active == a0 + AccessCount(cs, i) && requeued == r0 + AccessCount(cs, i)
    }

    /** One child of a reply: a pseudo-child is re-queried through this handler, any other is created. */
    method TakeOne(s: VariableSession, cs: seq<ChildInfo>, i: nat, hs: bool, ghost n0: map<NodeId, Node>,
                   ghost m0: map<string, NodeId>, ghost start: nat, ghost c0: seq<SessionCommand>,
                   ghost a0: int, ghost r0: nat)
      requires i < |cs| && Taken(s, cs, i, hs, n0, m0, start, c0, a0, r0)
      modifies this, s
      ensures Taken(s, cs, i + 1, hs, n0, m0, start, c0, a0, r0)
      ensures replies == old(replies) && finished == old(finished)
      ensures s.events == old(s.events) && s.state == old(s.state) && s.shuttingDown == old(s.shuttingDown)
      ensures s.nextVarId == old(s.nextVarId)
    {
      if IsAccessSpecifier(cs[i].exp) {
        Requery(s, cs, i, hs, n0, m0, start, c0, a0, r0);
      } else {
        Adopt(s, cs, i, hs, n0, m0, start, c0, a0, r0);
      }
    }

    /** A pseudo-child is queried again, through this same handler. */
    method Requery(s: VariableSession, cs: seq<ChildInfo>, i: nat, hs: bool, ghost n0: map<NodeId, Node>,
                   ghost m0: map<string, NodeId>, ghost start: nat, ghost c0: seq<SessionCommand>,
                   ghost a0: int, ghost r0: nat)
      requires i < |cs| && IsAccessSpecifier(cs[i].exp) && Taken(s, cs, i, hs, n0, m0, start, c0, a0, r0)
      modifies this, s
      ensures Taken(s, cs, i + 1, hs, n0, m0, start, c0, a0, r0)
      ensures replies == old(replies) && finished == old(finished)
      ensures s.events == old(s.events) && s.state == old(s.state) && s.shuttingDown == old(s.shuttingDown)
      ensures s.nextVarId == old(s.nextVarId)
    {
      MadePrefix(cs, i + 1, |cs|);
      ChildStep(cs, i, this);
      active := active + 1;
      requeued := requeued + 1;
      Regroup3(c0, Requeries(cs, i, this), [VarListAccessChildren(cs[i].name, this)]);
      s.AddCommand(VarListAccessChildren(cs[i].name, this));
    }

    /** Any other child becomes a child variable. */
    method Adopt(s: VariableSession, cs: seq<ChildInfo>, i: nat, hs: bool, ghost n0: map<NodeId, Node>,
                 ghost m0: map<string, NodeId>, ghost start: nat, ghost c0: seq<SessionCommand>,
                 ghost a0: int, ghost r0: nat)
      requires i < |cs| && !IsAccessSpecifier(cs[i].exp) && Taken(s, cs, i, hs, n0, m0, start, c0, a0, r0)
      modifies s
      ensures Taken(s, cs, i + 1, hs, n0, m0, start, c0, a0, r0)
      ensures s.events == old(s.events) && s.state == old(s.state) && s.shuttingDown == old(s.shuttingDown)
      ensures s.nextVarId == old(s.nextVarId)
    {
      if hs {
        AdoptInto(s, cs, i, n0, m0, start, c0, a0, r0);
      } else {
        MadePrefix(cs, i + 1, |cs|);
        MadeNext(cs, i);
        ChildStep(cs, i, this);
        var _ := s.CreateChild(node, cs[i]);
      }
    }

    /** With a session, the child is grown into the tree and registered. */
    method AdoptInto(s: VariableSession, cs: seq<ChildInfo>, i: nat, ghost n0: map<NodeId, Node>,
                     ghost m0: map<string, NodeId>, ghost start: nat, ghost c0: seq<SessionCommand>,
                     ghost a0: int, ghost r0: nat)
      requires i < |cs| && !IsAccessSpecifier(cs[i].exp) && Taken(s, cs, i, true, n0, m0, start, c0, a0, r0)
      modifies s
      ensures Taken(s, cs, i + 1, true, n0, m0, start, c0, a0, r0)
      ensures s.events == old(s.events) && s.state == old(s.state) && s.shuttingDown == old(s.shuttingDown)
      ensures s.nextVarId == old(s.nextVarId)
    {
      MadePrefix(cs, i + 1, |cs|);
      MadeNext(cs, i);
      ChildStep(cs, i, this);
      ghost var made, m := Made(cs, |cs|), |Made(cs, i)|;
      assert made[m] == cs[i];
      assert s.AppendedUpTo(node, made, m, n0, m0, start);
      s.AppendOne(node, cs[i], made, m, n0, m0, start);
      assert s.AppendedUpTo(node, made, m + 1, n0, m0, start);
      assert |Made(cs, i + 1)| == m + 1;
      assert Requeries(cs, i + 1, this) == Requeries(cs, i, this);
    }

    /** The loop of the fetch handler over the children of one reply. */
    method TakeChildren(s: VariableSession, cs: seq<ChildInfo>)
      requires s.Valid() && node in s.nodes
      modifies this, s
      ensures s.Valid() && node in s.nodes && s.nodes[node].hasSession == old(s.nodes)[node].hasSession
      ensures var made := Made(cs, |cs|);
              old(s.nodes)[node].hasSession ==>
                s.nodes == Grown(old(s.nodes), node, made, |made|, old(s.nextNode)) &&
                s.mapping == Registered(old(s.mapping), made, |made|, old(s.nextNode)) &&
                s.nextNode == old(s.nextNode) + |made|
      ensures !old(s.nodes)[node].hasSession ==>
                s.nodes == old(s.nodes) && s.mapping == old(s.mapping) && s.nextNode == old(s.nextNode)
      ensures s.commands == old(s.commands) + Requeries(cs, |cs|, this)
      ensures active == old(active) + AccessCount(cs, |cs|) && requeued == old(requeued) + AccessCount(cs, |cs|)
      ensures replies == old(replies) && finished == old(finished)
      ensures s.events == old(s.events) && s.state == old(s.state) && s.shuttingDown == old(s.shuttingDown)
      ensures s.nextVarId == old(s.nextVarId)
    {
      var hs := s.nodes[node].hasSession;
      ghost var n0, m0, start, c0, a0, r0 := s.nodes, s.mapping, s.nextNode, s.commands, active, requeued;
      var i := 0;
      while i < |cs|
        invariant i <= |cs| && Taken(s, cs, i, hs, n0, m0, start, c0, a0, r0)
        invariant replies == old(replies) && finished == old(finished)
        invariant s.events == old(s.events) && s.state == old(s.state) && s.shuttingDown == old(s.shuttingDown)
        invariant s.nextVarId == old(s.nextVarId)
      {
        TakeOne(s, cs, i, hs, n0, m0, start, c0, a0, r0);
        i := i + 1;
      }
    }

    /**
     * The fetch handler receiving one -var-list-children reply. A reply for
     * a variable that is gone is ignored. Otherwise the counter drops by
     * one, each access-specifier pseudo-child is re-queried through this
     * handler (raising the counter), every other child is created under the
     * variable, `hasMore` is taken from the reply, and when the counter
     * reaches zero allChildrenFetched fires and the handler is finished.
     */
    method Handle(s: VariableSession, reply: ChildrenReply)
      requires Valid() && s.Valid() && !finished
      modifies this, s
      ensures Valid() && s.Valid()
      ensures node !in old(s.nodes) ==> unchanged(this) && unchanged(s)
      ensures node in old(s.nodes) ==>
                var cs := reply.children.GetOr([]);
                var made := Made(cs, |cs|);
                var hs := old(s.nodes)[node].hasSession;
                var grown := if hs then Grown(old(s.nodes), node, made, |made|, old(s.nextNode)) else old(s.nodes);
                node in grown &&
                s.nodes == grown[node := grown[node].(hasMore := Flag(reply.hasMore))] &&
                s.mapping == (if hs then Registered(old(s.mapping), made, |made|, old(s.nextNode)) else old(s.mapping)) &&
                s.nextNode == old(s.nextNode) + (if hs then |made| else 0) &&
                s.commands == old(s.commands) + Requeries(cs, |cs|, this) &&
                active == old(active) - 1 + AccessCount(cs, |cs|) &&
                (finished <==> active == 0) &&
                s.events == old(s.events) + (if active == 0 then [AllChildrenFetched(node)] else [])
      ensures s.state == old(s.state) && s.shuttingDown == old(s.shuttingDown) && s.nextVarId == old(s.nextVarId)
    {
      if node !in s.nodes {
        return;
      }
      active := active - 1;
      replies := replies + 1;
      var cs := reply.children.GetOr([]);
      TakeChildren(s, cs);
      s.SetFields(node, s.nodes[node].(hasMore := Flag(reply.hasMore)));
      if active == 0 {
        s.events := s.events + [AllChildrenFetched(node)];
        finished := true;
      }
    }
  }

  // ---------------------------------------------------------------------------
  // Specification of the create and update handlers

  /** The variable after a -var-create reply: children gone, in scope, and on success the reply's handle, type, value and hasMore. */
  function Created(n: Node, reply: CreateReply): (m: Node)
    ensures m.children == [] && m.inScope
    ensures m.parent == n.parent && m.topLevel == n.topLevel && m.hasSession == n.hasSession
    ensures m.expression == n.expression && m.format == n.format && m.expanded == n.expanded && m.changed == n.changed
    ensures reply.isError ==>
              m.showError && m.varobj == n.varobj && m.hasMore == n.hasMore && m.typ == n.typ && m.value == n.value
    ensures !reply.isError ==>
              m.showError == n.showError && m.varobj == (if n.hasSession then reply.name else n.varobj) &&
              m.typ == reply.typ && m.value == reply.value &&
              m.hasMore == (Flag(reply.hasMore) || reply.numchild != 0)
  {
    Answered(n.(children := [], inScope := true), reply)
  }

  /** An error reply only marks the variable as showing an error; a good one binds it. */
  function Answered(n: Node, reply: CreateReply): Node {
    if reply.isError then n.(showError := true) else Bound(n, reply)
  }

  /** The fields a good -var-create reply sets: the handle (kept without a session), hasMore, type and value. */
  function Bound(n: Node, reply: CreateReply): Node {
    n.(varobj := if n.hasSession then reply.name else n.varobj, hasMore := CreateHasMore(reply),
       typ := reply.typ, value := FormatValue(reply.value))
  }

  predicate TypeChanged(u: UpdateInfo) {
    u.typeChanged == Some("true")
  }

  predicate OutOfScope(u: UpdateInfo) {
    u.inScope == Some("false")
  }

  /** Whether handleUpdate creates the `new_children` of `u` under `n`. */
  predicate UpdateCreates(n: Node, u: UpdateInfo) {
    !OutOfScope(u) && u.newChildren.Some? && n.hasSession
  }

  /** The tables after the type-changed step of handleUpdate. */
  ghost function Retyped(n0: map<NodeId, Node>, m0: map<string, NodeId>, id: NodeId, u: UpdateInfo)
    : (r: (map<NodeId, Node>, map<string, NodeId>))
    requires id in n0
    ensures id in r.0 && r.0[id].hasSession == n0[id].hasSession
  {
    if TypeChanged(u) then
      var p := Pruned(n0, id, 0);
      (p[id := p[id].(hasMore := u.newNumChildren.GetOr(0) != 0)], PrunedMapping(n0, m0, id, 0))
    else (n0, m0)
  }

  /** The tables after the child-count step of the in-scope branch. */
  ghost function Trimmed(n1: map<NodeId, Node>, m1: map<string, NodeId>, id: NodeId, u: UpdateInfo)
    : (r: (map<NodeId, Node>, map<string, NodeId>))
    requires id in n1
    ensures id in r.0 && r.0[id].hasSession == n1[id].hasSession
  {
    var n2 := n1[id := n1[id].(inScope := true)];
    match u.newNumChildren
    case Some(k) =>
      var h := n2[id := n2[id].(hasMore := false)];
      (Pruned(h, id, k), PrunedMapping(h, m1, id, k))
    case None => (n2, m1)
  }

  /** The in-scope branch of handleUpdate; new children are numbered from `start`. */
  ghost function InScopeUpdated(n1: map<NodeId, Node>, m1: map<string, NodeId>, id: NodeId, u: UpdateInfo, start: nat)
    : (r: (map<NodeId, Node>, map<string, NodeId>))
    requires id in n1
    ensures id in r.0
  {
    var t := Trimmed(n1, m1, id, u);
    var g := if u.newChildren.Some? && n1[id].hasSession
             then (Grown(t.0, id, u.newChildren.value, |u.newChildren.value|, start),
                   Registered(t.1, u.newChildren.value, |u.newChildren.value|, start))
             else t;
    var v := g.0[id];
    (g.0[id := v.(typ := if TypeChanged(u) then u.newType else v.typ, value := FormatValue(u.value),
                  changed := true, hasMore := Flag(u.hasMore))], g.1)
  }

  /** The tables after handleUpdate has applied `u` to `id`. */
  ghost function Updated(n0: map<NodeId, Node>, m0: map<string, NodeId>, id: NodeId, u: UpdateInfo, start: nat)
    : (r: (map<NodeId, Node>, map<string, NodeId>))
    requires id in n0
    ensures id in r.0
  {
    var t := Retyped(n0, m0, id, u);
    if OutOfScope(u) then (t.0[id := t.0[id].(inScope := false)], t.1)
    else InScopeUpdated(t.0, t.1, id, u, start)
  }

  /** createChild appends the new ids, in order, to the parent's child list and changes nothing else of the parent. */
  lemma {:induction false} GrownChildren(nodes: map<NodeId, Node>, id: NodeId, infos: seq<ChildInfo>, n: nat, start: nat)
    requires id in nodes && n <= |infos|
    ensures Grown(nodes, id, infos, n, start)[id] == nodes[id].(children := nodes[id].children + Range(start, n))
    decreases n
  {
    if n > 0 {
      GrownChildren(nodes, id, infos, n - 1, start);
      assert nodes[id].children + Range(start, n) == nodes[id].children + Range(start, n - 1) + [start + n - 1];
    }
  }

  /**
   * With fresh ids above the parent, each new node is the one createChild
   * builds from its child tuple and every other variable is left alone.
   */
  lemma {:induction false} GrownNodes(nodes: map<NodeId, Node>, id: NodeId, infos: seq<ChildInfo>, n: nat, start: nat, x: NodeId)
    requires id in nodes && n <= |infos| && id < start
    ensures var g := Grown(nodes, id, infos, n, start);
            start <= x < start + n ==> x in g && g[x] == ChildNode(id, infos[x - start])
    ensures var g := Grown(nodes, id, infos, n, start);
            x != id && !(start <= x < start + n) ==> (x in g <==> x in nodes) && (x in nodes ==> g[x] == nodes[x])
    decreases n
  {
    if n > 0 {
      GrownNodes(nodes, id, infos, n - 1, start, x);
    }
  }

  /**
   * Out of scope, a variable keeps its type, value and hasMore-as-left and
   * only drops out of scope; its children are kept unless the type changed.
   */
  lemma UpdateOutOfScope(n0: map<NodeId, Node>, m0: map<string, NodeId>, id: NodeId, u: UpdateInfo, start: nat)
    requires id in n0 && OutOfScope(u)
    ensures var r := Updated(n0, m0, id, u, start);
            var v := r.0[id];
            !v.inScope && v.value == n0[id].value && v.typ == n0[id].typ && v.changed == n0[id].changed &&
            v.children == (if TypeChanged(u) then [] else n0[id].children) &&
            r.1 == (if TypeChanged(u) then PrunedMapping(n0, m0, id, 0) else m0)
    ensures !TypeChanged(u) ==> Updated(n0, m0, id, u, start).0 == n0[id := n0[id].(inScope := false)]
  {
  }

  /** The number of old children an in-scope update keeps. */
  function KeptOnUpdate(len: nat, u: UpdateInfo): nat {
    if TypeChanged(u) then 0
    else match u.newNumChildren
      case Some(k) => Kept(len, k)
      case None => len
  }

  /**
   * In scope, the updated variable keeps the first children down to the
   * new child count (none if the type changed), followed by the new
   * children, and shows the reported value, new type and hasMore.
   */
  lemma InScopeUpdateShape(n0: map<NodeId, Node>, m0: map<string, NodeId>, id: NodeId, u: UpdateInfo, start: nat)
    requires id in n0 && !OutOfScope(u)
    ensures var v := Updated(n0, m0, id, u, start).0[id];
            var kids := n0[id].children;
            v == n0[id].(children := kids[..KeptOnUpdate(|kids|, u)] +
                                     (if UpdateCreates(n0[id], u) then Range(start, |u.newChildren.value|) else []),
                         inScope := true, changed := true, value := u.value, hasMore := Flag(u.hasMore),
                         typ := if TypeChanged(u) then u.newType else n0[id].typ)
  {
    var kids := n0[id].children;
    var t1 := Retyped(n0, m0, id, u);
    RetypedParent(n0, m0, id, u);
    TrimmedParent(t1.0, t1.1, id, u);
    InScopeParent(t1.0, t1.1, id, u, start);
    assert Updated(n0, m0, id, u, start).0[id] == InScopeUpdated(t1.0, t1.1, id, u, start).0[id];
    if TypeChanged(u) {
      assert t1.0[id].children == [];
    } else {
      assert t1.0[id] == n0[id];
    }
  }

  /** The create loop of the in-scope branch appends the new ids after the kept children. */
  lemma InScopeParent(n1: map<NodeId, Node>, m1: map<string, NodeId>, id: NodeId, u: UpdateInfo, start: nat)
    requires id in n1
    ensures var v := InScopeUpdated(n1, m1, id, u, start).0[id];
            var w := Trimmed(n1, m1, id, u).0[id];
            v == w.(children := w.children + (if u.newChildren.Some? && n1[id].hasSession
                                              then Range(start, |u.newChildren.value|) else []),
                    typ := if TypeChanged(u) then u.newType else w.typ, value := FormatValue(u.value),
                    changed := true, hasMore := Flag(u.hasMore))
  {
    var t := Trimmed(n1, m1, id, u);
    if u.newChildren.Some? && n1[id].hasSession {
      GrownChildren(t.0, id, u.newChildren.value, |u.newChildren.value|, start);
    } else {
      assert t.0[id].children + [] == t.0[id].children;
    }
  }

  /** The type-changed step leaves the variable without children, or untouched. */
  lemma RetypedParent(n0: map<NodeId, Node>, m0: map<string, NodeId>, id: NodeId, u: UpdateInfo)
    requires id in n0
    ensures var v := Retyped(n0, m0, id, u).0[id];
            v == (if TypeChanged(u) then n0[id].(children := [], hasMore := u.newNumChildren.GetOr(0) != 0) else n0[id])
  {
  }

  /** The child-count step keeps the first children down to the new count. */
  lemma TrimmedParent(n1: map<NodeId, Node>, m1: map<string, NodeId>, id: NodeId, u: UpdateInfo)
    requires id in n1
    ensures var v := Trimmed(n1, m1, id, u).0[id];
            var kids := n1[id].children;
            v == n1[id].(children := kids[..(match u.newNumChildren case Some(k) => Kept(|kids|, k) case None => |kids|)],
                         inScope := true, hasMore := if u.newNumChildren.Some? then false else n1[id].hasMore)
  {
  }

  /** In scope and with a session, the new children are the nodes createChild builds, under fresh ids. */
  lemma UpdateNewChildren(n0: map<NodeId, Node>, m0: map<string, NodeId>, id: NodeId, u: UpdateInfo, start: nat, k: nat)
    requires WellFormed(n0, m0, start) && id in n0 && UpdateCreates(n0[id], u) && k < |u.newChildren.value|
    ensures var r := Updated(n0, m0, id, u, start).0;
            start + k in r && r[start + k] == ChildNode(id, u.newChildren.value[k])
  {
    var t1 := Retyped(n0, m0, id, u);
    var t := Trimmed(t1.0, t1.1, id, u);
    GrownNodes(t.0, id, u.newChildren.value, |u.newChildren.value|, start, start + k);
  }
}
