// The prefix filter (src/basic/filternode.h): a tree of nodes, one per prefix of a stored word.
//
// A match walks down from the root and stops at the first terminated node, so it answers with
// the shortest stored word that the input starts with. The root itself is never tested, and so
// the empty word, which the tree does accept, never matches.
module FilterTree {
  type Word = string
  type Value = int

  // ---------------------------------------------------------------------------------------
  // What is stored, and what a match must find
  // ---------------------------------------------------------------------------------------

  /** The words of a run of insertions, each with the value it was last given. */
  function Inserted(run: seq<(Word, Value)>): (words: map<Word, Value>)
  {
    if run == [] then map[]
    else Inserted(run[..|run| - 1])[run[|run| - 1].0 := run[|run| - 1].1]
  }

  lemma {:induction false} InsertedHoldsTheLast(run: seq<(Word, Value)>, i: nat)
    requires i < |run| && forall j :: i < j < |run| ==> run[j].0 != run[i].0
    ensures run[i].0 in Inserted(run) && Inserted(run)[run[i].0] == run[i].1
  {
    if i < |run| - 1 {
      InsertedHoldsTheLast(run[..|run| - 1], i);
    }
  }

  lemma {:induction false} InsertedHoldsNoOther(run: seq<(Word, Value)>, w: Word)
    requires w in Inserted(run)
    ensures exists i :: 0 <= i < |run| && run[i].0 == w && run[i].1 == Inserted(run)[w]
                        && forall j :: i < j < |run| ==> run[j].0 != w
  {
    var last := |run| - 1;
    if run[last].0 != w {
      InsertedHoldsNoOther(run[..last], w);
      var i :| 0 <= i < last && run[i].0 == w && run[i].1 == Inserted(run[..last])[w]
               && forall j :: i < j < last ==> run[..last][j].0 != w;
      assert forall j :: i < j < last ==> run[j].0 == run[..last][j].0;
    }
  }

  /** The first k characters of the input are its shortest non-empty stored prefix. */
  ghost predicate Shortest(words: map<Word, Value>, input: Word, k: nat) {
    && 1 <= k <= |input| && input[..k] in words
    && forall j :: 1 <= j < k ==> input[..j] !in words
  }

  ghost predicate NoPrefix(words: map<Word, Value>, input: Word) {
    forall j :: 1 <= j <= |input| ==> input[..j] !in words
  }

  // ---------------------------------------------------------------------------------------
  // The nodes
  // ---------------------------------------------------------------------------------------

  function Child(p: Word, m: char): (c: Word)
    ensures |c| == |p| + 1 && c[..|p|] == p && c[|p|] == m
  {
    p + [m]
  }

  class FilterNode {
    const isRoot: bool
    const matchObj: char
    ghost const path: Word  // the prefix that this node stands for
    var valueObj: Value
    var terminated: bool
    var sub: map<char, FilterNode>

    constructor (isRoot: bool, m: char, ghost path: Word)
      ensures this.isRoot == isRoot && this.matchObj == m && this.path == path
      ensures !terminated && sub == map[]
    {
      this.isRoot, this.matchObj, this.path := isRoot, m, path;
      terminated, sub, valueObj := false, map[], 0;
    }
  }

  class Filter {
    const root: FilterNode
    ghost var nodes: map<Word, FilterNode>
    ghost var words: map<Word, Value>

    /** Each node stands for one prefix, and hangs under the node of that prefix without its end. */
    ghost predicate Linked()
      reads this, nodes.Values
    {
      && [] in nodes && nodes[[]] == root
      && (forall p :: p in nodes ==> nodes[p].path == p && (nodes[p].isRoot <==> p == []))
      && (forall p, m :: p in nodes && m in nodes[p].sub ==> Child(p, m) in nodes && nodes[Child(p, m)] == nodes[p].sub[m])
      && (forall p, m :: Child(p, m) in nodes ==> p in nodes && m in nodes[p].sub)
    }

    /** The terminated nodes are those of the stored words and hold their values. */
    ghost predicate Valid()
      reads this, nodes.Values
    {
      && Linked()
      && (forall p :: p in nodes ==> (nodes[p].terminated <==> p in words))
      && (forall p :: p in words ==> p in nodes && nodes[p].valueObj == words[p])
    }

    constructor ()
      ensures Valid() && words == map[] && nodes.Keys == {[]} && fresh(root)
    {
      root := new FilterNode(true, ' ', []);
      words := map[];
      new;
      nodes := map[[] := root];
    }

    /** The child of a node for one more character, made when there is none. */
    method AddSubNode(node: FilterNode, m: char) returns (child: FilterNode)
      requires Valid() && node in nodes.Values
      modifies this`nodes, node`sub
      ensures Valid() && Child(node.path, m) in nodes && child == nodes[Child(node.path, m)]
      ensures forall p :: p in old(nodes) ==> p in nodes && nodes[p] == old(nodes)[p]
      ensures forall p :: p in nodes && p !in old(nodes) ==> p == Child(node.path, m) && fresh(nodes[p])
    {
      if m in node.sub {
        child := node.sub[m];
      } else {
        child := new FilterNode(false, m, Child(node.path, m));
        Hang(node, m, child);
      }
    }

    method Hang(node: FilterNode, m: char, child: FilterNode)
      requires Valid() && node in nodes.Values && m !in node.sub && child !in nodes.Values
      requires !child.isRoot && child.path == Child(node.path, m) && child.sub == map[] && !child.terminated
      modifies this`nodes, node`sub
      ensures Valid() && nodes == old(nodes)[child.path := child]
      ensures child.path !in old(nodes)
    {
      node.sub := node.sub[m := child];
      nodes := nodes[child.path := child];
      assert forall p :: p in old(nodes) ==> p != child.path && nodes[p] == old(nodes)[p];
      assert Linked();
    }

    lemma {:induction false} PrefixIsThere(p: Word, n: nat)
      requires Linked() && p in nodes && n <= |p|
      ensures p[..n] in nodes
    {
      if n < |p| {
        var front := p[..|p| - 1];
        assert p == Child(front, p[|p| - 1]);
        PrefixIsThere(front, n);
        assert front[..n] == p[..n];
      } else {
        assert p[..n] == p;
      }
    }

    lemma ShorterIsThere(input: Word, i: nat)
      requires Linked() && i <= |input|
      ensures forall j :: i <= j <= |input| && input[..j] in nodes ==> input[..i] in nodes
    {
      forall j | i <= j <= |input| && input[..j] in nodes ensures input[..i] in nodes {
        PrefixIsThere(input[..j], i);
        assert input[..j][..i] == input[..i];
      }
    }

    method Terminate(node: FilterNode, v: Value)
      requires Valid() && node in nodes.Values
      modifies this`words, node`terminated, node`valueObj
      ensures Valid() && words == old(words)[node.path := v] && node.valueObj == v
    {
      node.terminated := true;
      node.valueObj := v;
      words := words[node.path := v];
    }

    /** create_filter_tree: walks down from the root, makes what is missing, and marks the last node. */
    method AddWord(from: FilterNode, w: Word, v: Value) returns (result: FilterNode?)
      requires Valid() && from in nodes.Values
      modifies this, nodes.Values
      ensures Valid() && forall p :: p in nodes && p !in old(nodes) ==> fresh(nodes[p])
      ensures forall p :: p in old(nodes) ==> p in nodes && nodes[p] == old(nodes)[p]
      ensures from != root ==> result == null && words == old(words) && nodes == old(nodes)
      ensures from == root ==> words == old(words)[w := v]
      ensures from == root ==> forall p :: p in nodes <==> p in old(nodes) || IsPrefix(p, w)
      ensures from == root ==> w in nodes && result == nodes[w]
    {
      if !from.isRoot {
        return null;
      }
      var cur := from;
      for i := 0 to |w|
        invariant Valid() && words == old(words)
        invariant cur in nodes.Values && cur.path == w[..i]
        invariant forall p :: p in nodes && p !in old(nodes) ==> fresh(nodes[p])
        invariant forall p :: p in old(nodes) ==> p in nodes && nodes[p] == old(nodes)[p]
        invariant forall p :: p in nodes <==> p in old(nodes) || IsPrefix(p, w[..i])
      {
        assert Child(w[..i], w[i]) == w[..i + 1];
        PrefixOfChild(w, i);
        cur := AddSubNode(cur, w[i]);
      }
      assert w[..|w|] == w;
      Terminate(cur, v);
      result := cur;
    }

    /** The tree holds the words of a run of insertions and one node for each of their prefixes. */
    ghost predicate Stores(run: seq<(Word, Value)>)
      reads this, nodes.Values
    {
      && Valid() && words == Inserted(run)
      && forall p :: p in nodes <==> PrefixInRun(run, p)
    }

    method AddNext(run: seq<(Word, Value)>, i: nat)
      requires i < |run| && Stores(run[..i])
      modifies this, nodes.Values
      ensures Stores(run[..i + 1])
      ensures fresh(nodes.Values - old(nodes).Values)
    {
      OneMoreInRun(run, i);
      var _ := AddWord(root, run[i].0, run[i].1);
    }

    ghost predicate StandsFor(node: FilterNode, w: Word)
      reads this
    {
      w in nodes && node == nodes[w]
    }

    /** The nodes from below the root down to the first terminated one. */
    method MatchStack(from: FilterNode, input: Word) returns (stack: seq<FilterNode>)
      requires Valid() && from in nodes.Values
      ensures from != root ==> stack == []
      ensures from == root ==> if stack == [] then NoPrefix(words, input) else Shortest(words, input, |stack|)
      ensures from == root ==> forall i :: 0 <= i < |stack| <= |input| ==> StandsFor(stack[i], input[..i + 1])
    {
      stack := [];
      if !from.isRoot {
        return;
      }
      var last := from;
      for i := 0 to |input|
        invariant |stack| == i && StandsFor(last, input[..i])
        invariant forall j :: 0 <= j < |stack| ==> StandsFor(stack[j], input[..j + 1])
        invariant forall j :: 1 <= j <= i ==> input[..j] !in words
      {
        assert Child(input[..i], input[i]) == input[..i + 1];
        if input[i] !in last.sub {
          ShorterIsThere(input, i + 1);
          return [];
        }
        last := last.sub[input[i]];
        assert StandsFor(last, input[..i + 1]);
        stack := stack + [last];
        if last.terminated {
          return;
        }
      }
      return [];
    }

    ghost predicate Answers(node: FilterNode, w: Word)
      reads this, node
    {
      StandsFor(node, w) && w in words && node.valueObj == words[w]
    }

    /** The node of the shortest stored word that the input starts with, or null when there is none. */
    method IsMatch(from: FilterNode, input: Word) returns (result: FilterNode?)
      requires Valid() && from in nodes.Values
      ensures result == null <==> from != root || NoPrefix(words, input)
      ensures result != null ==> exists k: nat :: Shortest(words, input, k) && Answers(result, input[..k])
    {
      var stack := MatchStack(from, input);
      if stack == [] {
        return null;
      }
      assert input[..|stack|] in words;
      result := stack[|stack| - 1];
    }
  }

  predicate IsPrefix(p: Word, w: Word) { p <= w }

  lemma PrefixOfChild(w: Word, i: nat)
    requires i < |w|
    ensures forall p :: IsPrefix(p, w[..i + 1]) <==> IsPrefix(p, w[..i]) || p == w[..i + 1]
  {
    forall p | IsPrefix(p, w[..i + 1]) && p != w[..i + 1] ensures IsPrefix(p, w[..i]) {
      assert p == w[..i + 1][..|p|] == w[..i][..|p|];
    }
  }

  ghost predicate PrefixInRun(run: seq<(Word, Value)>, p: Word) {
    p == [] || exists i :: 0 <= i < |run| && IsPrefix(p, run[i].0)
  }

  lemma OneMoreInRun(run: seq<(Word, Value)>, i: nat)
    requires i < |run|
    ensures forall p :: PrefixInRun(run[..i + 1], p) <==> PrefixInRun(run[..i], p) || IsPrefix(p, run[i].0)
    ensures Inserted(run[..i + 1]) == Inserted(run[..i])[run[i].0 := run[i].1]
  {
    assert run[..i + 1][..i] == run[..i];
    forall p | PrefixInRun(run[..i], p) || IsPrefix(p, run[i].0) ensures PrefixInRun(run[..i + 1], p) {
      if IsPrefix(p, run[i].0) {
        assert IsPrefix(p, run[..i + 1][i].0);
      } else if p != [] {
        var j :| 0 <= j < i && IsPrefix(p, run[..i][j].0);
        assert IsPrefix(p, run[..i + 1][j].0);
      }
    }
    forall p | PrefixInRun(run[..i + 1], p) && !IsPrefix(p, run[i].0) ensures PrefixInRun(run[..i], p) {
      if p != [] {
        var j :| 0 <= j <= i && IsPrefix(p, run[..i + 1][j].0);
        assert IsPrefix(p, run[..i][j].0);
      }
    }
  }

  /** A fresh tree after any run of insertions stores exactly the words of the run, and no other prefix. */
  method FilterOf(run: seq<(Word, Value)>) returns (f: Filter)
    ensures f.Stores(run)
  {
    f := new Filter();
    for i := 0 to |run|
      invariant fresh(f) && fresh(f.nodes.Values) && f.Stores(run[..i])
    {
      f.AddNext(run, i);
    }
    assert run[..|run|] == run;
  }
}
