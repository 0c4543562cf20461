/** Extraction of the hidden login tokens from the parsed login page. */
module Tokens {
  import opened Wrappers
  import opened Types

  datatype NodeType = ErrorNode | TextNode | DocumentNode | ElementNode | CommentNode | DoctypeNode

  /** The tag atom of a node; only `input` matters here. */
  datatype Atom = InputAtom | OtherAtom(tag: string) | NoAtom

  datatype Attribute = Attribute(Namespace: string, Key: string, Val: string)

  /** A parsed HTML node; `children` lists FirstChild, its NextSibling and so on. */
  datatype Node = Node(Type: NodeType, DataAtom: Atom, Attr: seq<Attribute>, children: seq<Node>)

  predicate IsInputElement(n: Node) {
    n.DataAtom == InputAtom && n.Type == ElementNode
  }

  predicate IsHiddenFirst(n: Node)
    requires |n.Attr| >= 1
  {
    n.Attr[0].Key == "type" && n.Attr[0].Val == "hidden"
  }

  /** The attributes the token check reads are present: the check reads the
      first attribute of every input element, the second when the first is
      type="hidden", and the third when the second also names a token. */
  predicate AttrsReadable(n: Node) {
    IsInputElement(n) ==>
      |n.Attr| >= 1 &&
      (IsHiddenFirst(n) ==>
        |n.Attr| >= 2 &&
        (n.Attr[1].Key == "id" && (n.Attr[1].Val == "securityToken" || n.Attr[1].Val == "ApplicationId") ==>
          |n.Attr| >= 3))
  }

  predicate TreeReadable(n: Node) {
    AttrsReadable(n) && forall i :: 0 <= i < |n.children| ==> TreeReadable(n.children[i])
  }

  /** The value a node carries for the hidden input with the given id, if it is one. */
  function TokenOf(n: Node, id: string): Option<string> {
    if IsInputElement(n) && |n.Attr| >= 3 && IsHiddenFirst(n) &&
       n.Attr[1].Key == "id" && n.Attr[1].Val == id
    then Some(n.Attr[2].Val)
    else None
  }

  /** The slot's content after visiting n. */
  function Visit(n: Node, id: string, slot: string): string {
    match TokenOf(n, id)
    case Some(v) => v
    case None => slot
  }

  /** The nodes of a tree in pre-order: the node, then each child's subtree in turn. */
  function Preorder(n: Node): seq<Node>
    decreases n, 1
  {
    [n] + PreorderAll(n.children)
  }

  function PreorderAll(ns: seq<Node>): seq<Node>
    decreases ns, 0
  {
    if ns == [] then [] else Preorder(ns[0]) + PreorderAll(ns[1..])
  }

  /** The slot after visiting the nodes in order. */
  function VisitAll(ns: seq<Node>, id: string, slot: string): string
    decreases |ns|
  {
    if ns == [] then slot else VisitAll(ns[1..], id, Visit(ns[0], id, slot))
  }

  lemma {:induction false} PreorderAllSnoc(ns: seq<Node>, n: Node)
    ensures PreorderAll(ns + [n]) == PreorderAll(ns) + Preorder(n)
    decreases |ns|
  {
    if ns == [] {
      assert PreorderAll([n]) == Preorder(n) + PreorderAll([]);
    } else {
      assert (ns + [n])[1..] == ns[1..] + [n];
      PreorderAllSnoc(ns[1..], n);
    }
  }

  lemma {:induction false} VisitAllAppend(a: seq<Node>, b: seq<Node>, id: string, slot: string)
    ensures VisitAll(a + b, id, slot) == VisitAll(b, id, VisitAll(a, id, slot))
    decreases |a|
  {
    if a == [] {
      assert a + b == b;
    } else {
      assert (a + b)[1..] == a[1..] + b;
      VisitAllAppend(a[1..], b, id, Visit(a[0], id, slot));
    }
  }

  /** The slot keeps its value when no node matches, and otherwise ends with the
      value of the last matching node: the last match in pre-order wins. */
  lemma {:induction false} VisitAllIsLastMatch(ns: seq<Node>, id: string, slot: string)
    ensures (forall k :: 0 <= k < |ns| ==> TokenOf(ns[k], id).None?) ==> VisitAll(ns, id, slot) == slot
    ensures forall k :: 0 <= k < |ns| && TokenOf(ns[k], id).Some? &&
                        (forall j :: k < j < |ns| ==> TokenOf(ns[j], id).None?) ==>
                          VisitAll(ns, id, slot) == TokenOf(ns[k], id).value
    decreases |ns|
  {
    if ns != [] {
      VisitAllIsLastMatch(ns[1..], id, Visit(ns[0], id, slot));
      forall k | 0 <= k < |ns| && TokenOf(ns[k], id).Some? &&
                 (forall j :: k < j < |ns| ==> TokenOf(ns[j], id).None?)
        ensures VisitAll(ns, id, slot) == TokenOf(ns[k], id).value
      {
        if k > 0 {
          assert ns[1..][k - 1] == ns[k];
          assert forall j :: k - 1 < j < |ns| - 1 ==> ns[1..][j] == ns[j + 1];
        } else {
          assert forall j :: 0 <= j < |ns| - 1 ==> ns[1..][j] == ns[j + 1];
        }
      }
    }
  }

  /** findTokens: walks the tree depth-first, child by child, and sets each slot
      to the third attribute of every hidden input that names it. The slots are
      passed in and handed back, as the Go code writes them by reference;
      the returned error is always nil. */
  method FindTokens(n: Node, securityToken: string, appID: string)
    returns (st: string, app: string, err: Option<Error>)
    requires TreeReadable(n)
    ensures st == VisitAll(Preorder(n), "securityToken", securityToken)
    ensures app == VisitAll(Preorder(n), "ApplicationId", appID)
    ensures err == None
    decreases n
  {
    st, app := securityToken, appID;
    if n.DataAtom == InputAtom && n.Type == ElementNode {
      if n.Attr[0].Key == "type" && n.Attr[0].Val == "hidden" &&
         n.Attr[1].Key == "id" && n.Attr[1].Val == "securityToken" {
        st := n.Attr[2].Val;
      }
    }
    if n.DataAtom == InputAtom && n.Type == ElementNode {
      if n.Attr[0].Key == "type" && n.Attr[0].Val == "hidden" &&
         n.Attr[1].Key == "id" && n.Attr[1].Val == "ApplicationId" {
        app := n.Attr[2].Val;
      }
    }
    assert st == Visit(n, "securityToken", securityToken);
    assert app == Visit(n, "ApplicationId", appID);
    ghost var st0, app0 := st, app;
    var i := 0;
    while i < |n.children|
      invariant 0 <= i <= |n.children|
      invariant st == VisitAll(PreorderAll(n.children[..i]), "securityToken", st0)
      invariant app == VisitAll(PreorderAll(n.children[..i]), "ApplicationId", app0)
    {
      var c := n.children[i];
      ghost var before := PreorderAll(n.children[..i]);
      var ignored;
      st, app, ignored := FindTokens(c, st, app);
      assert n.children[..i + 1] == n.children[..i] + [c];
      PreorderAllSnoc(n.children[..i], c);
      VisitAllAppend(before, Preorder(c), "securityToken", st0);
      VisitAllAppend(before, Preorder(c), "ApplicationId", app0);
      i := i + 1;
    }
    assert n.children[..i] == n.children;
    err := None;
  }
}
