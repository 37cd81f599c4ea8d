/**
  The parsed syntax tree and the classification of a captured comment
  (findNearestParentOfTypes, determineCommentLevel, findNearestClass and
  extractClassName in src/extract_comments.ts). The tree comes from a grammar library
  that is not modelled; here it is an arena of nodes that point at each other by index.
*/
module SyntaxTree {
  import opened Wrappers

  /** One node: its grammar kind, its parent and its neighbours among the parent's
      children, and the text of its `name` field when it has one. */
  datatype Node = Node(
    kind: string,
    parent: Option<nat>,
    previousSibling: Option<nat>,
    nextSibling: Option<nat>,
    name: Option<string>)

  /** The arena is numbered in document order: a parent and a previous sibling come
      before a node, a next sibling after it, and every index points into the arena. */
  predicate ValidTree(tree: seq<Node>) {
    forall i :: 0 <= i < |tree| ==>
      (tree[i].parent.Some? ==> tree[i].parent.value < i)
      && (tree[i].previousSibling.Some? ==> tree[i].previousSibling.value < i)
      && (tree[i].nextSibling.Some? ==> i < tree[i].nextSibling.value < |tree|)
  }

  /** `node?.type === kind` for a node that may be absent. */
  predicate KindIs(tree: seq<Node>, node: Option<nat>, kind: string) {
    node.Some? && node.value < |tree| && tree[node.value].kind == kind
  }

  // ---------------------------------------------------------------- ancestors

  /** The node and its ancestors, nearest first, up to the root. */
  function Ancestry(tree: seq<Node>, i: nat): (r: seq<nat>)
    requires ValidTree(tree) && i < |tree|
    ensures |r| >= 1 && r[0] == i
    ensures forall k :: 0 <= k < |r| ==> r[k] <= i
    decreases i
  {
    match tree[i].parent
    case None => [i]
    case Some(p) => [i] + Ancestry(tree, p)
  }

  /** findNearestParentOfTypes: the node itself or its nearest ancestor whose kind is one
      of `kinds`. */
  function NearestOfKinds(tree: seq<Node>, i: nat, kinds: seq<string>): (r: Option<nat>)
    requires ValidTree(tree) && i < |tree|
    ensures r.Some? ==> r.value <= i && tree[r.value].kind in kinds
    decreases i
  {
    if tree[i].kind in kinds then Some(i)
    else
      match tree[i].parent
      case None => None
      case Some(p) => NearestOfKinds(tree, p, kinds)
  }

  /** No node among `nodes` has a kind in `kinds`. */
  predicate NoneOfKinds(tree: seq<Node>, nodes: seq<nat>, kinds: seq<string>)
    requires forall k :: 0 <= k < |nodes| ==> nodes[k] < |tree|
  {
    forall k :: 0 <= k < |nodes| ==> tree[nodes[k]].kind !in kinds
  }

  /** A node followed by its ancestors holds no wanted kind exactly when neither the
      node nor the ancestors do. */
  lemma NoneOfKindsCons(tree: seq<Node>, i: nat, b: seq<nat>, kinds: seq<string>)
    requires i < |tree| && forall k :: 0 <= k < |b| ==> b[k] < |tree|
    ensures NoneOfKinds(tree, [i] + b, kinds) <==> tree[i].kind !in kinds && NoneOfKinds(tree, b, kinds)
  {
    var a := [i] + b;
    assert forall k :: 1 <= k < |a| ==> a[k] == b[k - 1];
    if tree[i].kind !in kinds && NoneOfKinds(tree, b, kinds) {
      forall k | 0 <= k < |a| ensures tree[a[k]].kind !in kinds {
        if k > 0 {
          assert a[k] == b[k - 1];
        }
      }
    }
    if NoneOfKinds(tree, a, kinds) {
      assert tree[a[0]].kind !in kinds;
      forall k | 0 <= k < |b| ensures tree[b[k]].kind !in kinds {
        assert b[k] == a[k + 1];
      }
    }
  }

  /** None is found exactly when no node on the way up has a wanted kind. */
  lemma {:induction false} NearestNoneIff(tree: seq<Node>, i: nat, kinds: seq<string>)
    requires ValidTree(tree) && i < |tree|
    ensures NearestOfKinds(tree, i, kinds).None? ==> NoneOfKinds(tree, Ancestry(tree, i), kinds)
    ensures NoneOfKinds(tree, Ancestry(tree, i), kinds) ==> NearestOfKinds(tree, i, kinds).None?
    decreases i
  {
    var a := Ancestry(tree, i);
    if tree[i].kind in kinds {
      assert tree[a[0]].kind in kinds;
    } else {
      match tree[i].parent
      case None =>
        assert a == [i] + [];
        NoneOfKindsCons(tree, i, [], kinds);
      case Some(p) =>
        NearestNoneIff(tree, p, kinds);
        assert a == [i] + Ancestry(tree, p);
        NoneOfKindsCons(tree, i, Ancestry(tree, p), kinds);
    }
  }

  /** The node found is the first on the way up whose kind is wanted. */
  lemma {:induction false} NearestIsFirstOnAncestry(tree: seq<Node>, i: nat, kinds: seq<string>)
    requires ValidTree(tree) && i < |tree|
    ensures NearestOfKinds(tree, i, kinds).Some? ==>
              exists n :: 0 <= n < |Ancestry(tree, i)| && Ancestry(tree, i)[n] == NearestOfKinds(tree, i, kinds).value
                && NoneOfKinds(tree, Ancestry(tree, i)[..n], kinds)
    decreases i
  {
    var a := Ancestry(tree, i);
    if tree[i].kind in kinds {
      var r := NearestOfKinds(tree, i, kinds);
      assert r == Some(i);
      assert a[..0] == [];
      assert 0 < |a| && a[0] == r.value && NoneOfKinds(tree, a[..0], kinds);
    } else {
      match tree[i].parent
      case None =>
      case Some(p) =>
        NearestIsFirstOnAncestry(tree, p, kinds);
        var b := Ancestry(tree, p);
        assert a == [i] + b;
        var r := NearestOfKinds(tree, i, kinds);
        if r.Some? {
          var n :| 0 <= n < |b| && b[n] == r.value && NoneOfKinds(tree, b[..n], kinds);
          assert a[n + 1] == r.value && a[..n + 1] == [i] + b[..n];
          NoneOfKindsCons(tree, i, b[..n], kinds);
        }
    }
  }

  /** findNearestParentOfTypes: walks up from the node, one parent at a time. */
  method FindNearestParentOfTypes(tree: seq<Node>, node: nat, types: seq<string>) returns (found: Option<nat>)
    requires ValidTree(tree) && node < |tree|
    ensures found == NearestOfKinds(tree, node, types)
  {
    var current: Option<nat> := Some(node);
    while current.Some?
      invariant current.Some? ==> current.value < |tree|
                                  && NearestOfKinds(tree, current.value, types) == NearestOfKinds(tree, node, types)
      invariant current.None? ==> NearestOfKinds(tree, node, types) == None
      decreases if current.Some? then current.value + 1 else 0
    {
      if tree[current.value].kind in types {
        return current;
      }
      current := tree[current.value].parent;
    }
    return None;
  }

  /** findNearestClass: the nearest proper ancestor of kind `class_declaration` (the
      Java kind only). */
  function NearestClass(tree: seq<Node>, i: nat): (r: Option<nat>)
    requires ValidTree(tree) && i < |tree|
    ensures r.Some? ==> r.value < i && tree[r.value].kind == "class_declaration"
  {
    match tree[i].parent
    case None => None
    case Some(p) => NearestOfKinds(tree, p, ["class_declaration"])
  }

  /** findNearestClass: starts at the parent and walks up. */
  method FindNearestClass(tree: seq<Node>, node: nat) returns (found: Option<nat>)
    requires ValidTree(tree) && node < |tree|
    ensures found == NearestClass(tree, node)
  {
    var currentNode: Option<nat> := tree[node].parent;
    while currentNode.Some?
      invariant currentNode.Some? ==>
                  currentNode.value < |tree|
                  && NearestOfKinds(tree, currentNode.value, ["class_declaration"]) == NearestClass(tree, node)
      invariant currentNode.None? ==> NearestClass(tree, node) == None
      decreases if currentNode.Some? then currentNode.value + 1 else 0
    {
      if tree[currentNode.value].kind == "class_declaration" {
        return currentNode;
      }
      currentNode := tree[currentNode.value].parent;
    }
    return None;
  }

  /** A class node found for a comment is a proper ancestor of it of the Java class kind,
      and no class lies between them; none is found exactly when no proper ancestor is a
      class. A node of that kind that is the comment itself is never its class. */
  lemma NearestClassIsClosestAbove(tree: seq<Node>, i: nat)
    requires ValidTree(tree) && i < |tree|
    ensures var a := Ancestry(tree, i);
            var r := NearestClass(tree, i);
            (r.None? ==> NoneOfKinds(tree, a[1..], ["class_declaration"]))
            && (NoneOfKinds(tree, a[1..], ["class_declaration"]) ==> r.None?)
            && (r.Some? ==> exists n :: 1 <= n < |a| && a[n] == r.value && NoneOfKinds(tree, a[1..n], ["class_declaration"]))
  {
    var a := Ancestry(tree, i);
    match tree[i].parent
    case None =>
      assert a[1..] == [];
    case Some(p) =>
      ClassSearchFromParent(tree, i, p);
  }

  lemma ClassSearchFromParent(tree: seq<Node>, i: nat, p: nat)
    requires ValidTree(tree) && i < |tree| && tree[i].parent == Some(p)
    ensures var a := Ancestry(tree, i);
            var r := NearestClass(tree, i);
            (r.None? ==> NoneOfKinds(tree, a[1..], ["class_declaration"]))
            && (NoneOfKinds(tree, a[1..], ["class_declaration"]) ==> r.None?)
            && (r.Some? ==> exists n :: 1 <= n < |a| && a[n] == r.value && NoneOfKinds(tree, a[1..n], ["class_declaration"]))
  {
    ClassNoneFromParent(tree, i, p);
    if NearestClass(tree, i).Some? {
      ClassFoundFromParent(tree, i, p);
    }
  }

  lemma ClassNoneFromParent(tree: seq<Node>, i: nat, p: nat)
    requires ValidTree(tree) && i < |tree| && tree[i].parent == Some(p)
    ensures NearestClass(tree, i).None? <==> NoneOfKinds(tree, Ancestry(tree, i)[1..], ["class_declaration"])
  {
    NearestNoneIff(tree, p, ["class_declaration"]);
    assert Ancestry(tree, i)[1..] == Ancestry(tree, p);
  }

  lemma ClassFoundFromParent(tree: seq<Node>, i: nat, p: nat)
    requires ValidTree(tree) && i < |tree| && tree[i].parent == Some(p)
    requires NearestClass(tree, i).Some?
    ensures exists n :: 1 <= n < |Ancestry(tree, i)| && Ancestry(tree, i)[n] == NearestClass(tree, i).value
              && NoneOfKinds(tree, Ancestry(tree, i)[1..n], ["class_declaration"])
  {
    var b := Ancestry(tree, p);
    var r := NearestOfKinds(tree, p, ["class_declaration"]);
    NearestIsFirstOnAncestry(tree, p, ["class_declaration"]);
    var n :| 0 <= n < |b| && b[n] == r.value && NoneOfKinds(tree, b[..n], ["class_declaration"]);
    ConsSlice(i, b, n);
    var a := Ancestry(tree, i);
    assert a == [i] + b;
    assert NearestClass(tree, i) == r;
    assert 1 <= n + 1 < |a| && a[n + 1] == r.value && NoneOfKinds(tree, a[1..n + 1], ["class_declaration"]);
  }

  /** Dropping the head of `[i] + b` and taking `n` more is taking `n` of `b`. */
  lemma ConsSlice(i: nat, b: seq<nat>, n: nat)
    requires n < |b|
    ensures ([i] + b)[1..n + 1] == b[..n] && ([i] + b)[n + 1] == b[n]
  {
  }

  /** extractClassName: the text of the class node's `name` field for Java and Python,
      '' when there is none or for another language. */
  function ExtractClassName(tree: seq<Node>, classNode: nat, language: string): (r: string)
    requires classNode < |tree|
    ensures (language == "java" || language == "python") && tree[classNode].name.Some?
            ==> r == tree[classNode].name.value
    ensures !(language == "java" || language == "python") || tree[classNode].name.None? ==> r == ""
  {
    if language == "java" || language == "python" then
      match tree[classNode].name
      case Some(text) => text
      case None => ""
    else ""
  }

  /** The class name the grammar path records for a capture: that of the nearest class,
      or '' when there is none. */
  function ClassNameOf(tree: seq<Node>, i: nat, language: string): (r: string)
    requires ValidTree(tree) && i < |tree|
    ensures NearestClass(tree, i).None? ==> r == ""
  {
    match NearestClass(tree, i)
    case None => ""
    case Some(c) => ExtractClassName(tree, c, language)
  }

  // ---------------------------------------------------------------- levels

  datatype CommentLevel = Class | Method | Inline | Module

  /** The string value of each level. */
  function LevelName(level: CommentLevel): (r: string)
    ensures r in ["class", "method", "inline", "module"]
  {
    match level
    case Class => "class"
    case Method => "method"
    case Inline => "inline"
    case Module => "module"
  }

  /** `node.parent?.parent?.parent`, n steps up. */
  function Up(tree: seq<Node>, i: nat, n: nat): (r: Option<nat>)
    requires ValidTree(tree) && i < |tree|
    ensures r.Some? ==> r.value <= i
  {
    if n == 0 then Some(i)
    else
      match tree[i].parent
      case None => None
      case Some(p) => Up(tree, p, n - 1)
  }

  /** The previous siblings of a node, nearest first. */
  function PrecedingSiblings(tree: seq<Node>, prev: Option<nat>): (r: seq<nat>)
    requires ValidTree(tree) && (prev.Some? ==> prev.value < |tree|)
    ensures forall k :: 0 <= k < |r| ==> r[k] < |tree|
    decreases if prev.Some? then prev.value + 1 else 0
  {
    match prev
    case None => []
    case Some(j) => [j] + PrecedingSiblings(tree, tree[j].previousSibling)
  }

  /** The loop `while (prevNode?.type === 'comment') prevNode = prevNode.previousSibling`:
      the first previous sibling that is not a comment, if any. */
  function SkipComments(tree: seq<Node>, prev: Option<nat>): (r: Option<nat>)
    requires ValidTree(tree) && (prev.Some? ==> prev.value < |tree|)
    ensures r.Some? ==> r.value < |tree| && tree[r.value].kind != "comment"
    decreases if prev.Some? then prev.value + 1 else 0
  {
    match prev
    case None => None
    case Some(j) => if tree[j].kind == "comment" then SkipComments(tree, tree[j].previousSibling) else prev
  }

  predicate AllComments(tree: seq<Node>, nodes: seq<nat>)
    requires forall k :: 0 <= k < |nodes| ==> nodes[k] < |tree|
  {
    forall k :: 0 <= k < |nodes| ==> tree[nodes[k]].kind == "comment"
  }

  /** The skip runs off the start exactly when every previous sibling is a comment. */
  lemma {:induction false} SkipCommentsNoneIff(tree: seq<Node>, prev: Option<nat>)
    requires ValidTree(tree) && (prev.Some? ==> prev.value < |tree|)
    ensures SkipComments(tree, prev).None? ==> AllComments(tree, PrecedingSiblings(tree, prev))
    ensures AllComments(tree, PrecedingSiblings(tree, prev)) ==> SkipComments(tree, prev).None?
    decreases if prev.Some? then prev.value + 1 else 0
  {
    match prev
    case None =>
    case Some(j) =>
      var s := PrecedingSiblings(tree, prev);
      var t := PrecedingSiblings(tree, tree[j].previousSibling);
      assert s == [j] + t;
      SkipCommentsNoneIff(tree, tree[j].previousSibling);
      if tree[j].kind == "comment" {
        assert SkipComments(tree, prev) == SkipComments(tree, tree[j].previousSibling);
        assert forall k :: 1 <= k < |s| ==> s[k] == t[k - 1];
        if forall k :: 0 <= k < |t| ==> tree[t[k]].kind == "comment" {
          forall k | 0 <= k < |s| ensures tree[s[k]].kind == "comment" {
            if k > 0 {
              assert s[k] == t[k - 1];
            }
          }
          assert SkipComments(tree, tree[j].previousSibling).None?;
          assert SkipComments(tree, prev).None?;
        } else {
          var k :| 0 <= k < |t| && tree[t[k]].kind != "comment";
          assert s[k + 1] == t[k];
          assert tree[s[k + 1]].kind != "comment";
          assert !(forall k :: 0 <= k < |s| ==> tree[s[k]].kind == "comment");
          assert SkipComments(tree, tree[j].previousSibling).Some?;
          assert SkipComments(tree, prev).Some?;
        }
      } else {
        assert SkipComments(tree, prev) == prev;
        assert tree[s[0]].kind != "comment";
      }
  }

  const JavaDeclarations: seq<string> := ["class_declaration", "method_declaration"]
  const PythonDefinitions: seq<string> := ["class_definition", "function_definition"]

  /** The Java rule for a block comment: by the nearest enclosing declaration, else by
      the declaration that follows it. */
  function JavaBlockLevel(tree: seq<Node>, i: nat): CommentLevel
    requires ValidTree(tree) && i < |tree|
  {
    var parent := NearestOfKinds(tree, i, JavaDeclarations);
    if KindIs(tree, parent, "method_declaration") then Method
    else if KindIs(tree, parent, "class_declaration") then Class
    else if KindIs(tree, tree[i].nextSibling, "class_declaration") then Class
    else if KindIs(tree, tree[i].nextSibling, "method_declaration") then Method
    else Inline
  }

  /** The Python rule for a string: by the great-grandparent definition (a docstring's
      node sits in a statement in a block in the definition), else by the nearest
      enclosing definition, else module when only comments precede it. */
  function PythonStringLevel(tree: seq<Node>, i: nat): CommentLevel
    requires ValidTree(tree) && i < |tree|
  {
    var greatGrandparent := Up(tree, i, 3);
    if KindIs(tree, greatGrandparent, "function_definition") then Method
    else if KindIs(tree, greatGrandparent, "class_definition") then Class
    else
      var defParent := NearestOfKinds(tree, i, PythonDefinitions);
      if defParent.Some? then
        if tree[defParent.value].kind == "class_definition" then Class else Method
      else if SkipComments(tree, tree[i].previousSibling).None? then Module
      else Inline
  }

  /** determineCommentLevel as a value. */
  function Level(tree: seq<Node>, i: nat, language: string): (r: CommentLevel)
    requires ValidTree(tree) && i < |tree|
    ensures r != Inline ==> (language == "java" && tree[i].kind == "block_comment")
                            || (language == "python" && tree[i].kind == "string")
  {
    if language == "java" && tree[i].kind == "block_comment" then JavaBlockLevel(tree, i)
    else if language == "python" && tree[i].kind == "string" then PythonStringLevel(tree, i)
    else Inline
  }

  /** determineCommentLevel: the ancestor searches, then the walk back over comment
      siblings. */
  method DetermineCommentLevel(tree: seq<Node>, node: nat, language: string) returns (level: CommentLevel)
    requires ValidTree(tree) && node < |tree|
    ensures level == Level(tree, node, language)
  {
    if language == "java" {
      if tree[node].kind == "block_comment" {
        var parent := FindNearestParentOfTypes(tree, node, ["class_declaration", "method_declaration"]);
        if KindIs(tree, parent, "method_declaration") {
          return Method;
        }
        if KindIs(tree, parent, "class_declaration") {
          return Class;
        }
        if KindIs(tree, tree[node].nextSibling, "class_declaration") {
          return Class;
        }
        if KindIs(tree, tree[node].nextSibling, "method_declaration") {
          return Method;
        }
      }
    } else if language == "python" {
      if tree[node].kind == "string" {
        var greatGrandparent := Up(tree, node, 3);
        var isMethodDoc := KindIs(tree, greatGrandparent, "function_definition");
        var isClassDoc := KindIs(tree, greatGrandparent, "class_definition");
        if isMethodDoc {
          return Method;
        }
        if isClassDoc {
          return Class;
        }
        var defParent := FindNearestParentOfTypes(tree, node, ["class_definition", "function_definition"]);
        if defParent.Some? {
          return if tree[defParent.value].kind == "class_definition" then Class else Method;
        }
        var prevNode: Option<nat> := tree[node].previousSibling;
        while KindIs(tree, prevNode, "comment")
          invariant prevNode.Some? ==> prevNode.value < |tree|
          invariant SkipComments(tree, prevNode) == SkipComments(tree, tree[node].previousSibling)
          decreases if prevNode.Some? then prevNode.value + 1 else 0
        {
          prevNode := tree[prevNode.value].previousSibling;
        }
        if prevNode.None? {
          return Module;
        }
      }
    }
    return Inline;
  }

  // ---------------------------------------------------------------- properties

  /** Java line comments, Python `#` comments and every capture of another language are
      inline; only a Python string can be module level. */
  lemma InlineUnlessDocumentation(tree: seq<Node>, i: nat, language: string)
    requires ValidTree(tree) && i < |tree|
    ensures language == "java" && tree[i].kind != "block_comment" ==> Level(tree, i, language) == Inline
    ensures language == "python" && tree[i].kind != "string" ==> Level(tree, i, language) == Inline
    ensures language != "java" && language != "python" ==> Level(tree, i, language) == Inline
    ensures Level(tree, i, language) == Module ==> language == "python" && tree[i].kind == "string"
  {
  }

  /** A Java block comment inside a declaration takes the kind of the first declaration
      on the way up. */
  lemma JavaBlockByEnclosing(tree: seq<Node>, i: nat, n: nat)
    requires ValidTree(tree) && i < |tree| && tree[i].kind == "block_comment"
    requires n < |Ancestry(tree, i)|
    requires tree[Ancestry(tree, i)[n]].kind in JavaDeclarations
    requires NoneOfKinds(tree, Ancestry(tree, i)[..n], JavaDeclarations)
    ensures Level(tree, i, "java")
            == if tree[Ancestry(tree, i)[n]].kind == "method_declaration" then Method else Class
  {
    EnclosingIsNearest(tree, i, n, JavaDeclarations);
  }

  /** The first node of a wanted kind on the chain is the one the search finds. */
  lemma EnclosingIsNearest(tree: seq<Node>, i: nat, n: nat, kinds: seq<string>)
    requires ValidTree(tree) && i < |tree|
    requires n < |Ancestry(tree, i)|
    requires tree[Ancestry(tree, i)[n]].kind in kinds
    requires NoneOfKinds(tree, Ancestry(tree, i)[..n], kinds)
    ensures NearestOfKinds(tree, i, kinds) == Some(Ancestry(tree, i)[n])
  {
    var a := Ancestry(tree, i);
    NearestNoneIff(tree, i, kinds);
    NearestIsFirstOnAncestry(tree, i, kinds);
    var r := NearestOfKinds(tree, i, kinds);
    var n' :| 0 <= n' < |a| && a[n'] == r.value && NoneOfKinds(tree, a[..n'], kinds);
    FirstOfKindsUnique(tree, a, n, n', kinds);
  }

  /** Two positions that both hold a wanted kind with none before them are the same. */
  lemma FirstOfKindsUnique(tree: seq<Node>, a: seq<nat>, n: nat, n': nat, kinds: seq<string>)
    requires forall k :: 0 <= k < |a| ==> a[k] < |tree|
    requires n < |a| && n' < |a|
    requires tree[a[n]].kind in kinds && tree[a[n']].kind in kinds
    requires NoneOfKinds(tree, a[..n], kinds) && NoneOfKinds(tree, a[..n'], kinds)
    ensures n == n'
  {
    assert forall m :: 0 <= m < n ==> a[..n][m] == a[m];
    assert forall m :: 0 <= m < n' ==> a[..n'][m] == a[m];
  }

  /** A Java block comment outside every declaration takes the kind of the declaration
      right after it, and is inline when none follows. */
  lemma JavaBlockByNextSibling(tree: seq<Node>, i: nat)
    requires ValidTree(tree) && i < |tree| && tree[i].kind == "block_comment"
    requires NoneOfKinds(tree, Ancestry(tree, i), JavaDeclarations)
    ensures var next := tree[i].nextSibling;
            Level(tree, i, "java")
            == if KindIs(tree, next, "class_declaration") then Class
               else if KindIs(tree, next, "method_declaration") then Method
               else Inline
  {
    NearestNoneIff(tree, i, JavaDeclarations);
  }

  /** A Python string that is no docstring of a definition but lies inside one takes
      the kind of the first definition on the way up: class for a class, method for a
      function. */
  lemma PythonStringByEnclosing(tree: seq<Node>, i: nat, n: nat)
    requires ValidTree(tree) && i < |tree| && tree[i].kind == "string"
    requires !KindIs(tree, Up(tree, i, 3), "function_definition") && !KindIs(tree, Up(tree, i, 3), "class_definition")
    requires n < |Ancestry(tree, i)|
    requires tree[Ancestry(tree, i)[n]].kind in PythonDefinitions
    requires NoneOfKinds(tree, Ancestry(tree, i)[..n], PythonDefinitions)
    ensures Level(tree, i, "python")
            == if tree[Ancestry(tree, i)[n]].kind == "class_definition" then Class else Method
  {
    EnclosingIsNearest(tree, i, n, PythonDefinitions);
  }

  /** A Python string that is no docstring of a definition and lies outside every
      definition is module level exactly when only comments precede it, and inline
      otherwise. */
  lemma PythonModuleLevel(tree: seq<Node>, i: nat)
    requires ValidTree(tree) && i < |tree| && tree[i].kind == "string"
    requires !KindIs(tree, Up(tree, i, 3), "function_definition") && !KindIs(tree, Up(tree, i, 3), "class_definition")
    requires NoneOfKinds(tree, Ancestry(tree, i), PythonDefinitions)
    ensures Level(tree, i, "python") == Module ==> AllComments(tree, PrecedingSiblings(tree, tree[i].previousSibling))
    ensures AllComments(tree, PrecedingSiblings(tree, tree[i].previousSibling)) ==> Level(tree, i, "python") == Module
    ensures Level(tree, i, "python") == Module || Level(tree, i, "python") == Inline
  {
    NearestNoneIff(tree, i, PythonDefinitions);
    SkipCommentsNoneIff(tree, tree[i].previousSibling);
  }

  /** A Python string whose great-grandparent is a definition is that definition's
      docstring, whatever encloses it further up. */
  lemma PythonDocstringLevel(tree: seq<Node>, i: nat)
    requires ValidTree(tree) && i < |tree| && tree[i].kind == "string"
    ensures KindIs(tree, Up(tree, i, 3), "function_definition") ==> Level(tree, i, "python") == Method
    ensures KindIs(tree, Up(tree, i, 3), "class_definition") ==> Level(tree, i, "python") == Class
  {
  }
}
