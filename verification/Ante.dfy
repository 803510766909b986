/** The group limiter of the ante handler: a depth-bounded, early-exit inspection of message
    trees. */
module Ante {
  import opened Machine

  const MAX_GROUP_NESTED_MSGS: int := 7

  /** The messages packed in a container, unless they cannot be unpacked. */
  datatype Payload = Malformed | Msgs(msgs: seq<Msg>)

  /** A message as the limiter sees it: the containers, the grant with the type it
      authorizes (`None` when it cannot be unpacked), and everything else by its type. */
  datatype Msg =
    | Exec(payload: Payload)
    | SubmitProposal(payload: Payload)
    | Grant(authorized: Option<Bytes>)
    | Other(typeUrl: Bytes)

  datatype AnteError = TooDeep | CannotUnpack | DisabledGrant(typeUrl: Bytes) | DisabledMsg(typeUrl: Bytes)

  /** `isDisabled`. */
  predicate IsDisabled(disabled: seq<Bytes>, typeUrl: Bytes) {
    typeUrl in disabled
  }

  /** `checkMsg`. */
  function CheckMsg(disabled: seq<Bytes>, msg: Msg, inside: bool, depth: nat): Option<AnteError>
    decreases msg, 1
  {
    if depth >= MAX_GROUP_NESTED_MSGS then Some(TooDeep)
    else
      match msg
      case Exec(payload) =>
        if payload.Malformed? then Some(CannotUnpack) else CheckMsgs(disabled, payload.msgs, true, depth + 1)
      case Grant(authorized) =>
        if authorized.None? then Some(CannotUnpack)
        else if IsDisabled(disabled, authorized.value) then Some(DisabledGrant(authorized.value))
        else None
      case SubmitProposal(payload) =>
        if payload.Malformed? then Some(CannotUnpack) else CheckMsgs(disabled, payload.msgs, true, depth + 1)
      case Other(typeUrl) =>
        if inside && IsDisabled(disabled, typeUrl) then Some(DisabledMsg(typeUrl)) else None
  }

  /** The early-return loop over a list of messages. */
  function CheckMsgs(disabled: seq<Bytes>, msgs: seq<Msg>, inside: bool, depth: nat): Option<AnteError>
    decreases msgs, 0
  {
    if msgs == [] then None
    else
      var err := CheckMsg(disabled, msgs[0], inside, depth);
      if err.Some? then err else CheckMsgs(disabled, msgs[1..], inside, depth)
  }

  /** `AnteHandle`, up to the call of the next handler. */
  function AnteHandle(disabled: seq<Bytes>, tx: seq<Msg>): Option<AnteError> {
    CheckMsgs(disabled, tx, false, 1)
  }

  // The reference: nodes and paths

  /** The messages a container holds; nothing else has any. */
  function Children(msg: Msg): (msgs: seq<Msg>)
    ensures (msg.Exec? || msg.SubmitProposal?) && msg.payload.Msgs? ==> msgs == msg.payload.msgs
    ensures msg.Grant? || msg.Other? ==> msgs == []
  {
    match msg
    case Exec(Msgs(msgs)) => msgs
    case SubmitProposal(Msgs(msgs)) => msgs
    case _ => []
  }

  /** The number of messages in a tree and in a forest. */
  function TreeSize(msg: Msg): nat
    decreases msg, 1
  {
    match msg
    case Exec(Msgs(msgs)) => 1 + ForestSize(msgs)
    case SubmitProposal(Msgs(msgs)) => 1 + ForestSize(msgs)
    case _ => 1
  }

  function ForestSize(msgs: seq<Msg>): nat
    decreases msgs, 0
  {
    if msgs == [] then 0 else TreeSize(msgs[0]) + ForestSize(msgs[1..])
  }

  lemma ChildrenAreFewer(msg: Msg)
    ensures ForestSize(Children(msg)) < TreeSize(msg)
  {
  }

  /** What is wrong with one node, taken alone, at a depth counted from 1 at the top. */
  function NodeError(disabled: seq<Bytes>, msg: Msg, inside: bool, depth: nat): Option<AnteError> {
    if depth > 6 then Some(TooDeep)
    else if (msg.Exec? || msg.SubmitProposal?) && msg.payload.Malformed? then Some(CannotUnpack)
    else if msg.Grant? && msg.authorized.None? then Some(CannotUnpack)
    else if msg.Grant? && msg.authorized.value in disabled then Some(DisabledGrant(msg.authorized.value))
    else if msg.Other? && inside && msg.typeUrl in disabled then Some(DisabledMsg(msg.typeUrl))
    else None
  }

  datatype Node = Node(msg: Msg, inside: bool, depth: nat)

  /** All nodes of the trees in preorder. */
  function Preorder(msgs: seq<Msg>, inside: bool, depth: nat): seq<Node>
    decreases ForestSize(msgs)
  {
    if msgs == [] then []
    else
      var first := msgs[0];
      ChildrenAreFewer(first);
      [Node(first, inside, depth)] + Preorder(Children(first), true, depth + 1) + Preorder(msgs[1..], inside, depth)
  }

  function FirstError(disabled: seq<Bytes>, nodes: seq<Node>): Option<AnteError> {
    if nodes == [] then None
    else
      var err := NodeError(disabled, nodes[0].msg, nodes[0].inside, nodes[0].depth);
      if err.Some? then err else FirstError(disabled, nodes[1..])
  }

  lemma {:induction false} FirstErrorOfConcat(disabled: seq<Bytes>, a: seq<Node>, b: seq<Node>)
    ensures FirstError(disabled, a + b)
            == if FirstError(disabled, a).Some? then FirstError(disabled, a) else FirstError(disabled, b)
  {
    if a == [] {
      assert a + b == b;
    } else {
      assert (a + b)[0] == a[0] && (a + b)[1..] == a[1..] + b;
      FirstErrorOfConcat(disabled, a[1..], b);
    }
  }

  /** The recursion reports exactly the first faulty node of the whole forest in preorder,
      although it never looks below a node it rejects. */
  lemma {:induction false} ReportsFirstFault(disabled: seq<Bytes>, msgs: seq<Msg>, inside: bool, depth: nat)
    ensures CheckMsgs(disabled, msgs, inside, depth) == FirstError(disabled, Preorder(msgs, inside, depth))
    decreases ForestSize(msgs)
  {
    if msgs != [] {
      var first := msgs[0];
      var node := [Node(first, inside, depth)];
      ChildrenAreFewer(first);
      var below, rest := Preorder(Children(first), true, depth + 1), Preorder(msgs[1..], inside, depth);
      ReportsFirstFault(disabled, Children(first), true, depth + 1);
      ReportsFirstFault(disabled, msgs[1..], inside, depth);
      FirstErrorOfConcat(disabled, node + below, rest);
      FirstErrorOfConcat(disabled, node, below);
      assert node[1..] == [];
      assert FirstError(disabled, node) == NodeError(disabled, first, inside, depth);
    }
  }

  /** The message at the end of a path of child indices, the first one choosing a top-level
      message. Its depth is the length of the path. */
  function At(msgs: seq<Msg>, path: seq<nat>): Option<Msg>
    decreases |path|
  {
    if path == [] || path[0] >= |msgs| then None
    else if |path| == 1 then Some(msgs[path[0]])
    else At(Children(msgs[path[0]]), path[1..])
  }

  predicate PathFine(disabled: seq<Bytes>, msgs: seq<Msg>, path: seq<nat>, inside: bool, depth: nat)
    requires path != []
  {
    match At(msgs, path)
    case None => true
    case Some(m) => NodeError(disabled, m, inside || |path| > 1, depth + |path| - 1).None?
  }

  lemma {:induction false} ChecksEach(disabled: seq<Bytes>, msgs: seq<Msg>, inside: bool, depth: nat, k: nat)
    requires CheckMsgs(disabled, msgs, inside, depth).None? && k < |msgs|
    ensures CheckMsg(disabled, msgs[k], inside, depth).None?
  {
    if k > 0 {
      ChecksEach(disabled, msgs[1..], inside, depth, k - 1);
    }
  }

  lemma {:induction false} AcceptedPathsFine(disabled: seq<Bytes>, msgs: seq<Msg>, path: seq<nat>,
        inside: bool, depth: nat)
    requires path != [] && CheckMsgs(disabled, msgs, inside, depth).None?
    ensures PathFine(disabled, msgs, path, inside, depth)
    decreases |path|
  {
    if path[0] < |msgs| {
      ChecksEach(disabled, msgs, inside, depth, path[0]);
      if |path| > 1 {
        AcceptedPathsFine(disabled, Children(msgs[path[0]]), path[1..], true, depth + 1);
      }
    }
  }

  /** A rejected list has a faulty path. */
  lemma {:induction false} RejectedHasFault(disabled: seq<Bytes>, msgs: seq<Msg>, inside: bool, depth: nat)
    returns (path: seq<nat>)
    requires CheckMsgs(disabled, msgs, inside, depth).Some?
    ensures path != [] && !PathFine(disabled, msgs, path, inside, depth)
    decreases ForestSize(msgs)
  {
    ChildrenAreFewer(msgs[0]);
    if CheckMsg(disabled, msgs[0], inside, depth).None? {
      var p := RejectedHasFault(disabled, msgs[1..], inside, depth);
      path := [p[0] + 1] + p[1..];
      assert path[1..] == p[1..];
    } else if NodeError(disabled, msgs[0], inside, depth).Some? {
      path := [0];
    } else {
      var p := RejectedHasFault(disabled, Children(msgs[0]), true, depth + 1);
      path := [0] + p;
      assert path[1..] == p;
    }
  }

  /** What an acceptable node is, given the number of messages on the path to it. */
  predicate Acceptable(disabled: seq<Bytes>, msg: Msg, onPath: nat) {
    onPath <= 6
    && (msg.Exec? || msg.SubmitProposal? ==> msg.payload.Msgs?)
    && (msg.Grant? ==> msg.authorized.Some? && msg.authorized.value !in disabled)
    && (msg.Other? && onPath > 1 ==> msg.typeUrl !in disabled)
  }

  /** A transaction passes exactly when every payload unpacks, every path from the top holds
      at most six messages, no leaf strictly inside a container has a disabled type, and no
      grant at any depth names one. */
  lemma AcceptsExactly(disabled: seq<Bytes>, tx: seq<Msg>)
    ensures AnteHandle(disabled, tx).None? <==>
            forall path: seq<nat> | At(tx, path).Some? :: Acceptable(disabled, At(tx, path).value, |path|)
  {
    if AnteHandle(disabled, tx).None? {
      forall path: seq<nat> | At(tx, path).Some? ensures Acceptable(disabled, At(tx, path).value, |path|) {
        AcceptedPathsFine(disabled, tx, path, false, 1);
      }
    } else {
      var path := RejectedHasFault(disabled, tx, false, 1);
      assert At(tx, path).Some? && !Acceptable(disabled, At(tx, path).value, |path|);
    }
  }
}
