/**
 * Day 8: a network of labelled nodes, each with a left and a right child,
 * and a walk from "AAA" that follows a cyclic list of 'L'/'R' instructions
 * until it reaches "ZZZ". The table is sorted by label and each step finds
 * the current label by binary search.
 */
module Day8 {
  import opened Common
  import opened Nom
  import opened Sorting

  /** One line of the network: `label = (left, right)`. */
  datatype Node = Node(name: string, left: string, right: string)

  /** How the walk ends: arrived at "ZZZ" after `steps` moves, a label the
      table lacks or an instruction that is neither 'L' nor 'R' (both panic
      in the program), or the step budget ran out first. */
  datatype Outcome =
    | Done(steps: nat)
    | MissingLabel(missing: string)
    | BadInstruction(instruction: char)
    | OutOfFuel

  // ---------------------------------------------------------------------
  // Reading the input
  // ---------------------------------------------------------------------

  /** An ASCII letter: what `alpha1` accepts. */
  predicate IsAlpha(c: char) {
    ('a' <= c <= 'z') || ('A' <= c <= 'Z')
  }

  /** An ASCII letter or digit: what `alphanumeric1` accepts. */
  predicate IsAlnum(c: char) {
    IsAlpha(c) || IsDigit(c)
  }

  /** Length of the longest prefix whose characters satisfy `p`. */
  function RunOf(s: string, p: char -> bool): (n: nat)
    ensures n <= |s|
    ensures forall k :: 0 <= k < n ==> p(s[k])
    ensures n < |s| ==> !p(s[n])
  {
    if |s| == 0 || !p(s[0]) then 0 else 1 + RunOf(s[1..], p)
  }

  /** One or more characters satisfying `p`, returned as they are. */
  function Take1(s: string, p: char -> bool): (r: Parsed<string>)
    ensures r.Ok? ==> 0 < |r.value| && r.value + r.rest == s
    ensures r.Ok? ==> forall k :: 0 <= k < |r.value| ==> p(r.value[k])
    ensures r.Fail? <==> |s| == 0 || !p(s[0])
  {
    var n := RunOf(s, p);
    if n == 0 then Fail
    else
      assert s[..n] + s[n..] == s;
      Ok(s[..n], s[n..])
  }

  function Alpha1(s: string): Parsed<string> {
    Take1(s, IsAlpha)
  }

  function Alnum1(s: string): Parsed<string> {
    Take1(s, IsAlnum)
  }

  /** `label = (` : the label and the input after the opening parenthesis. */
  function ParseHead(s: string): (r: Parsed<string>)
    ensures r.Ok? ==> |r.rest| < |s|
  {
    var a := Alnum1(s);
    if a.Fail? then Fail
    else
      var b := Space1(a.rest);
      if b.None? then Fail
      else
        var c := Separator('=', b.value);
        if c.None? then Fail
        else
          var d := Tag("(", c.value);
          if d.None? then Fail
          else Ok(a.value, d.value)
  }

  /** `left, right)` followed by a newline. */
  function ParseChildren(s: string): (r: Parsed<(string, string)>)
    ensures r.Ok? ==> |r.rest| < |s|
  {
    var a := Alnum1(s);
    if a.Fail? then Fail
    else
      var b := Separator(',', a.rest);
      if b.None? then Fail
      else
        var c := Alnum1(b.value);
        if c.Fail? then Fail
        else
          var d := Tag(")\n", c.rest);
          if d.None? then Fail
          else Ok((a.value, c.value), d.value)
  }

  /** `parse_node`: `label = (left, right)` and a newline. */
  function ParseNode(s: string): (r: Parsed<Node>)
    ensures r.Ok? ==> |r.rest| < |s|
  {
    var h := ParseHead(s);
    if h.Fail? then Fail
    else
      var c := ParseChildren(h.rest);
      if c.Fail? then Fail
      else Ok(Node(h.value, c.value.0, c.value.1), c.rest)
  }

  /** The repetition inside `many1(parse_node)`: nodes as long as they
      parse, and the input from the first line that does not. `ReadInput`
      adds `many1`'s demand for at least one node. */
  function ParseNodes(s: string): (r: (seq<Node>, string))
    ensures |r.1| <= |s|
    ensures |r.0| == 0 <==> ParseNode(s).Fail?
    decreases |s|
  {
    var p := ParseNode(s);
    if p.Fail? then ([], s)
    else
      var more := ParseNodes(p.rest);
      ([p.value] + more.0, more.1)
  }

  /** `read_input`: the instruction letters, a blank line and at least
      one node; whatever follows the last node is ignored. */
  function ReadInput(s: string): (r: Option<(string, seq<Node>)>)
    ensures r.Some? ==> |r.value.0| > 0 && |r.value.1| > 0
  {
    var a := Alpha1(s);
    if a.Fail? then None
    else
      var b := Tag("\n\n", a.rest);
      if b.None? then None
      else
        var nodes := ParseNodes(b.value).0;
        if |nodes| == 0 then None else Some((a.value, nodes))
  }

  // ---------------------------------------------------------------------
  // Writing the input back out
  // ---------------------------------------------------------------------

  /** A label the parser accepts: one or more ASCII letters or digits. */
  predicate IsLabel(s: string) {
    |s| > 0 && forall k :: 0 <= k < |s| ==> IsAlnum(s[k])
  }

  predicate WellLabelled(n: Node) {
    IsLabel(n.name) && IsLabel(n.left) && IsLabel(n.right)
  }

  function RenderNodeOnto(n: Node, tail: string): string {
    n.name + (" = (" + (n.left + (", " + (n.right + (")\n" + tail)))))
  }

  function RenderNodesOnto(nodes: seq<Node>, tail: string): string {
    if |nodes| == 0 then tail
    else RenderNodeOnto(nodes[0], RenderNodesOnto(nodes[1..], tail))
  }

  function RenderInput(instructions: string, nodes: seq<Node>, tail: string): string {
    instructions + ("\n\n" + RenderNodesOnto(nodes, tail))
  }

  lemma {:induction false} RunOfAppend(a: string, b: string, p: char -> bool)
    requires forall k :: 0 <= k < |a| ==> p(a[k])
    requires |b| == 0 || !p(b[0])
    ensures RunOf(a + b, p) == |a|
  {
    if |a| > 0 {
      assert (a + b)[0] == a[0];
      assert (a + b)[1..] == a[1..] + b;
      RunOfAppend(a[1..], b, p);
    } else {
      assert a + b == b;
    }
  }

  /** A maximal run is taken whole and the rest is left alone. */
  lemma Take1Append(a: string, b: string, p: char -> bool)
    requires |a| > 0 && forall k :: 0 <= k < |a| ==> p(a[k])
    requires |b| == 0 || !p(b[0])
    ensures Take1(a + b, p) == Ok(a, b)
  {
    RunOfAppend(a, b, p);
    assert (a + b)[..|a|] == a;
    assert (a + b)[|a|..] == b;
  }

  lemma HeadRoundTrip(n: Node, rest: string)
    requires IsLabel(n.name)
    ensures ParseHead(n.name + (" = (" + rest)) == Ok(n.name, rest)
  {
    var afterEq := "(" + rest;
    var afterName := [' '] + (['=', ' '] + afterEq);
    assert " = (" + rest == afterName;
    Take1Append(n.name, afterName, IsAlnum);
    Space1One(['=', ' '] + afterEq);
    SeparatorOne('=', afterEq);
    TagAppend("(", rest);
  }

  lemma ChildrenRoundTrip(n: Node, tail: string)
    requires IsLabel(n.left) && IsLabel(n.right)
    ensures ParseChildren(n.left + (", " + (n.right + (")\n" + tail)))) == Ok((n.left, n.right), tail)
  {
    var afterRight := ")\n" + tail;
    var afterComma := n.right + afterRight;
    assert ", " + afterComma == [',', ' '] + afterComma;
    Take1Append(n.left, [',', ' '] + afterComma, IsAlnum);
    LeadOfAppend(n.right, afterRight);
    SeparatorOne(',', afterComma);
    Take1Append(n.right, afterRight, IsAlnum);
    TagAppend(")\n", tail);
  }

  /** Writing a node and reading it back gives the node and the rest. */
  lemma NodeRoundTrip(n: Node, tail: string)
    requires WellLabelled(n)
    ensures ParseNode(RenderNodeOnto(n, tail)) == Ok(n, tail)
  {
    var children := n.left + (", " + (n.right + (")\n" + tail)));
    HeadRoundTrip(n, children);
    ChildrenRoundTrip(n, tail);
  }

  /** The text after the last node does not start another node. */
  predicate EndsNodes(tail: string) {
    |tail| == 0 || !IsAlnum(tail[0])
  }

  lemma {:induction false} NodesRoundTrip(nodes: seq<Node>, tail: string)
    requires forall k :: 0 <= k < |nodes| ==> WellLabelled(nodes[k])
    requires EndsNodes(tail)
    ensures ParseNodes(RenderNodesOnto(nodes, tail)) == (nodes, tail)
  {
    if |nodes| == 0 {
      assert Alnum1(tail).Fail?;
      assert ParseHead(tail).Fail?;
    } else {
      var rest := RenderNodesOnto(nodes[1..], tail);
      NodeRoundTrip(nodes[0], rest);
      NodesRoundTrip(nodes[1..], tail);
      ConsTail(nodes);
    }
  }

  /** Reading the text `read_input` expects gives back the instructions and
      every node. */
  lemma InputRoundTrip(instructions: string, nodes: seq<Node>, tail: string)
    requires |instructions| > 0 && forall k :: 0 <= k < |instructions| ==> IsAlpha(instructions[k])
    requires |nodes| > 0 && forall k :: 0 <= k < |nodes| ==> WellLabelled(nodes[k])
    requires EndsNodes(tail)
    ensures ReadInput(RenderInput(instructions, nodes, tail)) == Some((instructions, nodes))
  {
    var body := RenderNodesOnto(nodes, tail);
    Take1Append(instructions, "\n\n" + body, IsAlpha);
    TagAppend("\n\n", body);
    NodesRoundTrip(nodes, tail);
  }

  /** The line shape from the program: `X = (L, R)` and a newline. */
  lemma NodeExample(s: string)
    requires s == "X = (L, R)\n"
    ensures ParseNode(s) == Ok(Node("X", "L", "R"), "")
  {
    var n := Node("X", "L", "R");
    assert WellLabelled(n);
    assert RenderNodeOnto(n, "") == s;
    NodeRoundTrip(n, "");
  }

  // ---------------------------------------------------------------------
  // The sorted table and binary search
  // ---------------------------------------------------------------------

  /** `String`'s order: character by character, a proper prefix first. */
  predicate LessLabel(a: string, b: string) {
    if |a| == 0 then |b| > 0
    else if |b| == 0 then false
    else if a[0] != b[0] then a[0] < b[0]
    else LessLabel(a[1..], b[1..])
  }

  lemma {:induction false} LessAsymmetric(a: string, b: string)
    ensures LessLabel(a, b) ==> !LessLabel(b, a)
  {
    if |a| > 0 && |b| > 0 && a[0] == b[0] {
      LessAsymmetric(a[1..], b[1..]);
    }
  }

  lemma {:induction false} LessTransitive(a: string, b: string, c: string)
    ensures LessLabel(a, b) && LessLabel(b, c) ==> LessLabel(a, c)
  {
    if |a| > 0 && |b| > 0 && |c| > 0 && a[0] == b[0] == c[0] {
      LessTransitive(a[1..], b[1..], c[1..]);
    }
  }

  lemma {:induction false} LessTotal(a: string, b: string)
    ensures a == b || LessLabel(a, b) || LessLabel(b, a)
  {
    if |a| > 0 && |b| > 0 && a[0] == b[0] {
      LessTotal(a[1..], b[1..]);
      if a[1..] == b[1..] {
        assert a == [a[0]] + a[1..] && b == [b[0]] + b[1..];
      }
    }
  }

  /** The table order: by label. */
  predicate NodeLess(n: Node, m: Node) {
    LessLabel(n.name, m.name)
  }

  lemma NodeOrder()
    ensures StrictOrder(NodeLess)
  {
    forall n: Node, m: Node ensures NodeLess(n, m) ==> !NodeLess(m, n) {
      LessAsymmetric(n.name, m.name);
    }
    forall n: Node, m: Node, o: Node ensures NodeLess(n, m) && NodeLess(m, o) ==> NodeLess(n, o) {
      LessTransitive(n.name, m.name, o.name);
    }
  }

  /** No label appears on two lines. */
  predicate UniqueLabels(nodes: seq<Node>) {
    forall i, j :: 0 <= i < j < |nodes| ==> nodes[i].name != nodes[j].name
  }

  /** `table.sort()`: with distinct labels, sorting the whole lines is
      sorting by label. */
  function SortTable(nodes: seq<Node>): (table: seq<Node>)
    requires UniqueLabels(nodes)
    ensures Ascending(table, NodeLess)
    ensures multiset(table) == multiset(nodes)
  {
    forall i, j | 0 <= i < |nodes| && 0 <= j < |nodes| && i != j
      ensures NodeLess(nodes[i], nodes[j]) || NodeLess(nodes[j], nodes[i])
    {
      LessTotal(nodes[i].name, nodes[j].name);
    }
    SortBy(nodes, NodeLess)
  }

  /** The reference lookup: the first line carrying `label`. */
  function Find(nodes: seq<Node>, name: string): (r: Option<Node>)
    ensures r.Some? ==> r.value in nodes && r.value.name == name
    ensures r.None? <==> forall k :: 0 <= k < |nodes| ==> nodes[k].name != name
  {
    if |nodes| == 0 then None
    else if nodes[0].name == name then Some(nodes[0])
    else
      var r := Find(nodes[1..], name);
      if r.None? then
        assert forall k :: 1 <= k < |nodes| ==> nodes[k] == nodes[1..][k - 1];
        None
      else r
  }

  /** `binary_search_by_key` on the label: an index whose line carries the
      label, or None when no line does. */
  method Search(table: seq<Node>, name: string) returns (r: Option<nat>)
    requires Ascending(table, NodeLess)
    ensures r.Some? ==> r.value < |table| && table[r.value].name == name
    ensures r.None? ==> forall k :: 0 <= k < |table| ==> table[k].name != name
  {
    NodeOrder();
    var lo, hi := 0, |table|;
    while lo < hi
      invariant 0 <= lo <= hi <= |table|
      invariant forall k :: 0 <= k < lo ==> LessLabel(table[k].name, name)
      invariant forall k :: hi <= k < |table| ==> LessLabel(name, table[k].name)
    {
      var mid := (lo + hi) / 2;
      if LessLabel(table[mid].name, name) {
        forall k | lo <= k < mid ensures LessLabel(table[k].name, name) {
          AscendingPairwise(table, NodeLess, k, mid);
          LessTransitive(table[k].name, table[mid].name, name);
        }
        lo := mid + 1;
      } else if table[mid].name == name {
        return Some(mid);
      } else {
        LessTotal(table[mid].name, name);
        forall k | mid < k < hi ensures LessLabel(name, table[k].name) {
          AscendingPairwise(table, NodeLess, mid, k);
          LessTransitive(name, table[mid].name, table[k].name);
        }
        hi := mid;
      }
    }
    forall k | 0 <= k < |table| ensures table[k].name != name {
      if k < lo {
        LessAsymmetric(table[k].name, name);
      } else {
        LessAsymmetric(name, table[k].name);
      }
    }
    return None;
  }

  /** Two lines of a table with distinct labels that carry the same label
      are the same line. */
  lemma SameLabelSameNode(nodes: seq<Node>, n: Node, m: Node)
    requires UniqueLabels(nodes) && n in nodes && m in nodes && n.name == m.name
    ensures n == m
  {
    var i :| 0 <= i < |nodes| && nodes[i] == n;
    var j :| 0 <= j < |nodes| && nodes[j] == m;
    assert i == j;
  }

  /** Looking a label up in the sorted table finds the same line as
      looking it up in the lines as read. */
  lemma FindSorted(nodes: seq<Node>, name: string)
    requires UniqueLabels(nodes)
    ensures Find(SortTable(nodes), name) == Find(nodes, name)
  {
    var table := SortTable(nodes);
    var a, b := Find(table, name), Find(nodes, name);
    if a.Some? {
      assert a.value in multiset(nodes);
      if b.Some? {
        SameLabelSameNode(nodes, a.value, b.value);
      }
    } else {
      forall k | 0 <= k < |nodes| ensures nodes[k].name != name {
        assert nodes[k] in multiset(table);
      }
    }
  }

  // ---------------------------------------------------------------------
  // The walk
  // ---------------------------------------------------------------------

  /** The instruction used for move number `k` (from 0): the list is read
      round and round. */
  function InstructionAt(instructions: string, k: nat): (c: char)
    requires |instructions| > 0
    ensures c in instructions
  {
    instructions[k % |instructions|]
  }

  /** One move from `label` on instruction `c`, None where the program
      panics. */
  function Move(nodes: seq<Node>, name: string, c: char): (next: Option<string>)
    ensures next.Some? <==> Find(nodes, name).Some? && (c == 'L' || c == 'R')
    ensures next.Some? && c == 'L' ==> next.value == Find(nodes, name).value.left
    ensures next.Some? && c == 'R' ==> next.value == Find(nodes, name).value.right
  {
    var node := Find(nodes, name);
    if node.None? then None
    else if c == 'L' then Some(node.value.left)
    else if c == 'R' then Some(node.value.right)
    else None
  }

  /** The reference walk: where `k` moves from "AAA" lead, ignoring
      "ZZZ"; None once a move is impossible. */
  function LabelAfter(nodes: seq<Node>, instructions: string, k: nat): (r: Option<string>)
    requires |instructions| > 0
  {
    if k == 0 then Some("AAA")
    else
      var prev := LabelAfter(nodes, instructions, k - 1);
      if prev.None? then None
      else Move(nodes, prev.value, InstructionAt(instructions, k - 1))
  }

  /** The loop of `solution1` from `label` after `steps` moves, for at most
      `fuel` more moves. */
  function WalkFrom(nodes: seq<Node>, instructions: string, name: string, steps: nat, fuel: nat): (o: Outcome)
    requires |instructions| > 0
    ensures o.Done? ==> steps < o.steps <= steps + fuel
    ensures o.BadInstruction? ==> o.instruction in instructions && o.instruction != 'L' && o.instruction != 'R'
    decreases fuel
  {
    if fuel == 0 then OutOfFuel
    else
      var node := Find(nodes, name);
      if node.None? then MissingLabel(name)
      else
        var c := InstructionAt(instructions, steps);
        if c != 'L' && c != 'R' then BadInstruction(c)
        else
          var next := if c == 'L' then node.value.left else node.value.right;
          if next == "ZZZ" then Done(steps + 1)
          else WalkFrom(nodes, instructions, next, steps + 1, fuel - 1)
  }

  /** `solution1` with a budget of `fuel` moves. An empty instruction list
      cycles to nothing, so the loop never runs and the answer is 0. */
  function Solution1(nodes: seq<Node>, instructions: string, fuel: nat): (o: Outcome)
    ensures |instructions| == 0 ==> o == Done(0)
    ensures |instructions| > 0 && o.Done? ==> 1 <= o.steps <= fuel
    ensures o.MissingLabel? ==> Find(nodes, o.missing).None?
  {
    if |instructions| == 0 then Done(0)
    else
      WalkFromMissing(nodes, instructions, "AAA", 0, fuel);
      WalkFrom(nodes, instructions, "AAA", 0, fuel)
  }

  lemma {:induction false} WalkFromMissing(nodes: seq<Node>, instructions: string, name: string, steps: nat, fuel: nat)
    requires |instructions| > 0
    ensures WalkFrom(nodes, instructions, name, steps, fuel).MissingLabel? ==>
              Find(nodes, WalkFrom(nodes, instructions, name, steps, fuel).missing).None?
    decreases fuel
  {
    if fuel > 0 && Find(nodes, name).Some? {
      var c := InstructionAt(instructions, steps);
      if c == 'L' || c == 'R' {
        var next := if c == 'L' then Find(nodes, name).value.left else Find(nodes, name).value.right;
        WalkFromMissing(nodes, instructions, next, steps + 1, fuel - 1);
      }
    }
  }

  /** `solution1` as the program runs it: sort the table, then look each
      label up by binary search. */
  method Solution1Sorted(nodes: seq<Node>, instructions: string, fuel: nat) returns (o: Outcome)
    requires UniqueLabels(nodes)
    ensures o == Solution1(nodes, instructions, fuel)
  {
    if |instructions| == 0 {
      return Done(0);
    }
    var table := SortTable(nodes);
    var name := "AAA";
    var steps := 0;
    while steps < fuel
      invariant steps <= fuel
      invariant WalkFrom(nodes, instructions, name, steps, fuel - steps) == Solution1(nodes, instructions, fuel)
    {
      var found := Search(table, name);
      FindSorted(nodes, name);
      if found.None? {
        return MissingLabel(name);
      }
      var node := table[found.value];
      assert Find(table, name) == Some(node) by {
        assert node in multiset(nodes);
        SameLabelSameNode(nodes, node, Find(nodes, name).value);
      }
      var c := instructions[steps % |instructions|];
      if c == 'L' {
        name := node.left;
      } else if c == 'R' {
        name := node.right;
      } else {
        return BadInstruction(c);
      }
      steps := steps + 1;
      if name == "ZZZ" {
        return Done(steps);
      }
    }
    return OutOfFuel;
  }

  // ---------------------------------------------------------------------
  // What the walk computes
  // ---------------------------------------------------------------------

  /** Once a move is impossible, no later position exists either. */
  lemma {:induction false} StuckStaysStuck(nodes: seq<Node>, instructions: string, k: nat, m: nat)
    requires |instructions| > 0 && k <= m
    requires LabelAfter(nodes, instructions, k).None?
    ensures LabelAfter(nodes, instructions, m).None?
    decreases m - k
  {
    if k < m {
      StuckStaysStuck(nodes, instructions, k + 1, m);
    }
  }

  /** Move `k` lands on an existing label other than "ZZZ". */
  predicate PassesBy(nodes: seq<Node>, instructions: string, k: nat)
    requires |instructions| > 0
  {
    var at := LabelAfter(nodes, instructions, k);
    at.Some? && at.value != "ZZZ"
  }

  /** A finished walk ends on "ZZZ". */
  lemma {:induction false} WalkFromEnds(nodes: seq<Node>, instructions: string, name: string, steps: nat, fuel: nat)
    requires |instructions| > 0
    requires LabelAfter(nodes, instructions, steps) == Some(name)
    ensures var o := WalkFrom(nodes, instructions, name, steps, fuel);
            o.Done? ==> LabelAfter(nodes, instructions, o.steps) == Some("ZZZ")
    decreases fuel
  {
    if fuel > 0 && Find(nodes, name).Some? {
      var c := InstructionAt(instructions, steps);
      if c == 'L' || c == 'R' {
        var next := Move(nodes, name, c).value;
        assert LabelAfter(nodes, instructions, steps + 1) == Some(next);
        if next != "ZZZ" {
          WalkFromEnds(nodes, instructions, next, steps + 1, fuel - 1);
        }
      }
    }
  }

  /** A finished walk passes only existing labels other than "ZZZ" on the
      way. */
  lemma {:induction false} WalkFromClear(nodes: seq<Node>, instructions: string, name: string, steps: nat, fuel: nat)
    requires |instructions| > 0
    requires LabelAfter(nodes, instructions, steps) == Some(name)
    ensures var o := WalkFrom(nodes, instructions, name, steps, fuel);
            o.Done? ==> forall k :: steps < k < o.steps ==> PassesBy(nodes, instructions, k)
    decreases fuel
  {
    if fuel > 0 && Find(nodes, name).Some? {
      var c := InstructionAt(instructions, steps);
      if c == 'L' || c == 'R' {
        var next := Move(nodes, name, c).value;
        if next != "ZZZ" {
          var o := WalkFrom(nodes, instructions, next, steps + 1, fuel - 1);
          assert LabelAfter(nodes, instructions, steps + 1) == Some(next);
          WalkFromClear(nodes, instructions, next, steps + 1, fuel - 1);
          if o.Done? {
            forall k | steps < k < o.steps ensures PassesBy(nodes, instructions, k) {
              if k > steps + 1 {
                assert steps + 1 < k < o.steps;
              }
            }
          }
        }
      }
    }
  }

  lemma {:induction false} WalkFromComplete(nodes: seq<Node>, instructions: string, name: string, steps: nat, fuel: nat, n: nat)
    requires |instructions| > 0
    requires LabelAfter(nodes, instructions, steps) == Some(name)
    requires steps < n <= steps + fuel
    requires LabelAfter(nodes, instructions, n) == Some("ZZZ")
    requires forall k :: steps < k < n ==> LabelAfter(nodes, instructions, k) != Some("ZZZ")
    ensures WalkFrom(nodes, instructions, name, steps, fuel) == Done(n)
    decreases fuel
  {
    if LabelAfter(nodes, instructions, steps + 1).None? {
      StuckStaysStuck(nodes, instructions, steps + 1, n);
    }
    var next := LabelAfter(nodes, instructions, steps + 1).value;
    if steps + 1 < n {
      WalkFromComplete(nodes, instructions, next, steps + 1, fuel - 1, n);
    }
  }

  /** A finished walk counts the moves to the first arrival at "ZZZ", and
      every label on the way exists. */
  lemma WalkArrives(nodes: seq<Node>, instructions: string, fuel: nat)
    requires |instructions| > 0 && Solution1(nodes, instructions, fuel).Done?
    ensures var n := Solution1(nodes, instructions, fuel).steps;
            && n >= 1
            && LabelAfter(nodes, instructions, n) == Some("ZZZ")
            && forall k :: 0 < k < n ==> PassesBy(nodes, instructions, k)
  {
    WalkFromEnds(nodes, instructions, "AAA", 0, fuel);
    WalkFromClear(nodes, instructions, "AAA", 0, fuel);
  }

  /** Conversely, the first arrival at "ZZZ" within the budget is the
      answer. */
  lemma FirstArrival(nodes: seq<Node>, instructions: string, fuel: nat, n: nat)
    requires |instructions| > 0 && 1 <= n <= fuel
    requires LabelAfter(nodes, instructions, n) == Some("ZZZ")
    requires forall k :: 0 < k < n ==> LabelAfter(nodes, instructions, k) != Some("ZZZ")
    ensures Solution1(nodes, instructions, fuel) == Done(n)
  {
    WalkFromComplete(nodes, instructions, "AAA", 0, fuel, n);
  }

  lemma MulAtLeast(m: nat, a: nat)
    requires a >= 1
    ensures m * a >= m
  {
  }

  /** The remainder is the only one below `m`. */
  lemma ModOf(k: nat, m: nat, q: nat, r: nat)
    requires m > 0 && r < m && k == m * q + r
    ensures k % m == r
  {
    var q', r' := k / m, k % m;
    assert k == m * q' + r';
    if q' < q {
      MulAtLeast(m, q - q');
      assert false;
    } else if q < q' {
      MulAtLeast(m, q' - q);
      assert false;
    }
  }

  /** Counting modulo `2 * m` and then modulo `m` is counting modulo `m`. */
  lemma ModTwice(k: nat, m: nat)
    requires m > 0
    ensures k % (2 * m) < m ==> k % m == k % (2 * m)
    ensures k % (2 * m) >= m ==> k % m == k % (2 * m) - m
  {
    var q, j := k / (2 * m), k % (2 * m);
    assert k == m * (2 * q) + j by {
      assert k == (2 * m) * q + j;
      assert (2 * m) * q == m * (2 * q);
    }
    if j < m {
      ModOf(k, m, 2 * q, j);
    } else {
      assert k == m * (2 * q + 1) + (j - m) by {
        assert m * (2 * q + 1) == m * (2 * q) + m;
      }
      ModOf(k, m, 2 * q + 1, j - m);
    }
  }

  /** Reading the doubled list round and round gives the same instruction
      at every move. */
  lemma InstructionTwice(instructions: string, k: nat)
    requires |instructions| > 0
    ensures InstructionAt(instructions + instructions, k) == InstructionAt(instructions, k)
  {
    var m := |instructions|;
    ModTwice(k, m);
    var j := k % (2 * m);
    if j >= m {
      assert (instructions + instructions)[j] == instructions[j - m];
    }
  }

  lemma {:induction false} WalkFromTwice(nodes: seq<Node>, instructions: string, name: string, steps: nat, fuel: nat)
    requires |instructions| > 0
    ensures WalkFrom(nodes, instructions + instructions, name, steps, fuel) == WalkFrom(nodes, instructions, name, steps, fuel)
    decreases fuel
  {
    InstructionTwice(instructions, steps);
    if fuel > 0 && Find(nodes, name).Some? {
      var node := Find(nodes, name).value;
      WalkFromTwice(nodes, instructions, node.left, steps + 1, fuel - 1);
      WalkFromTwice(nodes, instructions, node.right, steps + 1, fuel - 1);
    }
  }

  /** Instructions are used cyclically: writing the list out twice does not
      change the walk. */
  lemma CyclicInstructions(nodes: seq<Node>, instructions: string, fuel: nat)
    ensures Solution1(nodes, instructions + instructions, fuel) == Solution1(nodes, instructions, fuel)
  {
    if |instructions| > 0 {
      WalkFromTwice(nodes, instructions, "AAA", 0, fuel);
    }
  }

  /** The puzzle's second example: `LLR` around AAA, BBB and ZZZ takes six
      moves. */
  lemma LoopExample(nodes: seq<Node>)
    requires |nodes| == 3 && nodes[0] == Node("AAA", "BBB", "BBB")
    requires nodes[1] == Node("BBB", "AAA", "ZZZ") && nodes[2] == Node("ZZZ", "ZZZ", "ZZZ")
    ensures Solution1(nodes, "LLR", 10) == Done(6)
  {
    var ins := "LLR";
    var a, b := Some(nodes[0]), Some(nodes[1]);
    assert Find(nodes, "AAA") == a;
    assert Find(nodes, "BBB") == b;
    assert LabelAfter(nodes, ins, 1) == Some("BBB");
    assert LabelAfter(nodes, ins, 2) == Some("AAA");
    assert LabelAfter(nodes, ins, 3) == Some("BBB");
    assert LabelAfter(nodes, ins, 4) == Some("AAA");
    assert LabelAfter(nodes, ins, 5) == Some("BBB");
    assert LabelAfter(nodes, ins, 6) == Some("ZZZ");
    FirstArrival(nodes, ins, 10, 6);
  }

  /** The puzzle's first example: `RL` reaches ZZZ in two moves. */
  lemma BranchExample(nodes: seq<Node>)
    requires |nodes| == 7
    requires nodes[0] == Node("AAA", "BBB", "CCC") && nodes[1] == Node("BBB", "DDD", "EEE")
    requires nodes[2] == Node("CCC", "ZZZ", "GGG") && nodes[3] == Node("DDD", "DDD", "DDD")
    requires nodes[4] == Node("EEE", "EEE", "EEE") && nodes[5] == Node("GGG", "GGG", "GGG")
    requires nodes[6] == Node("ZZZ", "ZZZ", "ZZZ")
    ensures Solution1(nodes, "RL", 5) == Done(2)
  {
    var ins := "RL";
    assert Find(nodes, "AAA") == Some(nodes[0]);
    assert Find(nodes, "CCC") == Some(nodes[2]) by {
      assert nodes[1..][1..][0] == nodes[2];
    }
    assert LabelAfter(nodes, ins, 1) == Some("CCC");
    assert LabelAfter(nodes, ins, 2) == Some("ZZZ");
    FirstArrival(nodes, ins, 5, 2);
  }

  /** A letter other than 'L' or 'R' stops the walk when it is reached. */
  lemma BadLetterExample(nodes: seq<Node>)
    requires |nodes| == 3 && nodes[0] == Node("AAA", "BBB", "BBB")
    requires nodes[1] == Node("BBB", "AAA", "ZZZ") && nodes[2] == Node("ZZZ", "ZZZ", "ZZZ")
    ensures Solution1(nodes, "LX", 5) == BadInstruction('X')
  {
    assert Find(nodes, "AAA") == Some(nodes[0]);
    assert Find(nodes, "BBB") == Some(nodes[1]);
  }

  /** Without a line for "AAA" the first lookup fails. */
  lemma MissingStartExample(nodes: seq<Node>)
    requires nodes == [Node("ZZZ", "ZZZ", "ZZZ")]
    ensures Solution1(nodes, "L", 5) == MissingLabel("AAA")
  {
    assert Find(nodes, "AAA") == None;
  }
}
