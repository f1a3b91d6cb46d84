/**
 The search tree of names behind a merged listing: ordered by length and then by
 the first differing byte, linked at a leaf, rebalanced by rotations, and erased by pulling
 up the successor.  Each operation is proved to be the one on a map.
 */
module NameTree {

  // ----- the order -----

  /** strncmp on names of equal length */
  function Lex(a: string, b: string): int
    requires |a| == |b|
  {
    if a == [] then 0
    else if a[0] != b[0] then a[0] as int - b[0] as int
    else Lex(a[1..], b[1..])
  }

  function Compare(a: string, b: string): int {
    if |a| < |b| then -1 else if |a| > |b| then 1 else Lex(a, b)
  }

  lemma {:induction false} LexOrder(a: string, b: string)
    requires |a| == |b|
    ensures Lex(a, b) == 0 <==> a == b
    ensures Lex(a, b) < 0 <==> Lex(b, a) > 0
  {
    if a != [] {
      LexOrder(a[1..], b[1..]);
      assert a == [a[0]] + a[1..] && b == [b[0]] + b[1..];
    }
  }

  lemma {:induction false} LexTransitive(a: string, b: string, c: string)
    requires |a| == |b| == |c| && Lex(a, b) < 0 && Lex(b, c) < 0
    ensures Lex(a, c) < 0
  {
    if a[0] == b[0] == c[0] {
      LexTransitive(a[1..], b[1..], c[1..]);
    }
  }

  /** Comparing orders the names: only equal ones compare as 0, and the order is strict and transitive. */
  lemma CompareOrders(a: string, b: string, c: string)
    ensures Compare(a, b) == 0 <==> a == b
    ensures Compare(a, b) < 0 <==> Compare(b, a) > 0
    ensures Compare(a, b) < 0 && Compare(b, c) < 0 ==> Compare(a, c) < 0
  {
    if |a| == |b| {
      LexOrder(a, b);
    }
    if |a| == |b| == |c| && Compare(a, b) < 0 && Compare(b, c) < 0 {
      LexTransitive(a, b, c);
    }
  }

  // ----- trees -----

  datatype Tree<V> = Leaf | Node(left: Tree<V>, name: string, value: V, right: Tree<V>)

  /** The map a tree stands for */
  function Contents<V>(t: Tree<V>): map<string, V> {
    match t
    case Leaf => map[]
    case Node(left, name, value, right) => (Contents(left) + Contents(right))[name := value]
  }

  ghost predicate AllBefore<V>(t: Tree<V>, name: string) {
    forall m :: m in Contents(t) ==> Compare(m, name) < 0
  }

  ghost predicate AllAfter<V>(t: Tree<V>, name: string) {
    forall m :: m in Contents(t) ==> Compare(name, m) < 0
  }

  ghost predicate Sorted<V>(t: Tree<V>) {
    match t
    case Leaf => true
    case Node(left, name, _, right) => Sorted(left) && Sorted(right) && AllBefore(left, name) && AllAfter(right, name)
  }

  /** The side of a node that comparison points to is the only one that can hold the name. */
  lemma OneSide<V>(t: Tree<V>, name: string)
    requires t.Node? && Sorted(t)
    ensures Compare(name, t.name) == 0 <==> name == t.name
    ensures name in Contents(t.left) ==> Compare(name, t.name) < 0
    ensures name in Contents(t.right) ==> Compare(name, t.name) > 0
  {
    CompareOrders(name, t.name, name);
    CompareOrders(t.name, name, t.name);
  }

  /** The map of a sorted node, side by side */
  lemma At<V>(t: Tree<V>, name: string)
    requires t.Node? && Sorted(t)
    ensures name in Contents(t) <==> name == t.name || name in Contents(t.left) || name in Contents(t.right)
    ensures name == t.name ==> Contents(t)[name] == t.value && name !in Contents(t.left) && name !in Contents(t.right)
    ensures name in Contents(t.left) ==> Contents(t)[name] == Contents(t.left)[name] && name !in Contents(t.right)
    ensures name in Contents(t.right) ==> Contents(t)[name] == Contents(t.right)[name] && name !in Contents(t.left)
  {
    OneSide(t, name);
  }

  /** Changes on one side of a node are changes of its map. */
  lemma UpdateSide<V>(a: map<string, V>, b: map<string, V>, n: string, v: V, x: string, y: V)
    requires x != n
    ensures x !in b ==> (a[x := y] + b)[n := v] == (a + b)[n := v][x := y]
    ensures (a + b[x := y])[n := v] == (a + b)[n := v][x := y]
  {
  }

  lemma RemoveSide<V>(a: map<string, V>, b: map<string, V>, n: string, v: V, x: string)
    requires x != n
    ensures x !in b ==> ((a - {x}) + b)[n := v] == (a + b)[n := v] - {x}
    ensures x !in a ==> (a + (b - {x}))[n := v] == (a + b)[n := v] - {x}
  {
  }

  lemma ReplaceRoot<V>(a: map<string, V>, b: map<string, V>, n: string, v: V, x: string)
    requires x in b && x !in a && n !in a && n !in b
    ensures (a + (b - {x}))[x := b[x]] == (a + b)[n := v] - {n}
  {
  }

  lemma RootOnly<V>(a: map<string, V>, n: string, v: V)
    requires n !in a
    ensures (a + map[])[n := v] - {n} == a && (map[] + a)[n := v] - {n} == a
  {
  }

  // ----- insertion -----

  /** rb_link_node at the leaf where the descent ends */
  function Linked<V>(t: Tree<V>, name: string, value: V): Tree<V> {
    match t
    case Leaf => Node(Leaf, name, value, Leaf)
    case Node(left, n, v, right) =>
      if Compare(name, n) == 0 then t
      else if Compare(name, n) < 0 then Node(Linked(left, name, value), n, v, right)
      else Node(left, n, v, Linked(right, name, value))
  }

  lemma {:induction false} LinkedCorrect<V>(t: Tree<V>, name: string, value: V)
    requires Sorted(t) && name !in Contents(t)
    ensures Sorted(Linked(t, name, value)) && Contents(Linked(t, name, value)) == Contents(t)[name := value]
  {
    if t.Node? {
      OneSide(t, name);
      At(t, name);
      CompareOrders(t.name, name, name);
      UpdateSide(Contents(t.left), Contents(t.right), t.name, t.value, name, value);
      if Compare(name, t.name) < 0 {
        LinkedCorrect(t.left, name, value);
        assert AllBefore(Linked(t.left, name, value), t.name);
      } else {
        LinkedCorrect(t.right, name, value);
        assert AllAfter(Linked(t.right, name, value), t.name);
      }
    }
  }

  // ----- rebalancing -----

  /** One rotation at the node that `path` leads to, true being left */
  datatype Turn = Turn(path: seq<bool>, toLeft: bool)

  function Rotated<V>(t: Tree<V>, toLeft: bool): Tree<V> {
    if t.Leaf? then t
    else if toLeft && t.right.Node? then
      Node(Node(t.left, t.name, t.value, t.right.left), t.right.name, t.right.value, t.right.right)
    else if !toLeft && t.left.Node? then
      Node(t.left.left, t.left.name, t.left.value, Node(t.left.right, t.name, t.value, t.right))
    else t
  }

  function TurnedAt<V>(t: Tree<V>, path: seq<bool>, toLeft: bool): Tree<V>
    decreases |path|
  {
    if path == [] || t.Leaf? then Rotated(t, toLeft)
    else if path[0] then t.(left := TurnedAt(t.left, path[1..], toLeft))
    else t.(right := TurnedAt(t.right, path[1..], toLeft))
  }

  function Turned<V>(t: Tree<V>, turns: seq<Turn>): Tree<V>
    decreases |turns|
  {
    if turns == [] then t
    else Turned(TurnedAt(t, turns[0].path, turns[0].toLeft), turns[1..])
  }

  lemma RotatedCorrect<V>(t: Tree<V>, toLeft: bool)
    requires Sorted(t)
    ensures Sorted(Rotated(t, toLeft)) && Contents(Rotated(t, toLeft)) == Contents(t)
  {
    if t.Node? && toLeft && t.right.Node? {
      RaisedRight(t);
    } else if t.Node? && !toLeft && t.left.Node? {
      RaisedLeft(t);
    }
  }

  lemma RaisedRight<V>(t: Tree<V>)
    requires Sorted(t) && t.Node? && t.right.Node?
    ensures Sorted(Rotated(t, true)) && Contents(Rotated(t, true)) == Contents(t)
  {
    var r := t.right;
    var low := Node(t.left, t.name, t.value, r.left);
    assert r.name in Contents(r);
    forall m | m in Contents(r.left) ensures m in Contents(r) {
    }
    assert AllAfter(r.left, t.name);
    forall m | m in Contents(low) ensures Compare(m, r.name) < 0 {
      CompareOrders(m, t.name, r.name);
    }
    assert Sorted(low);
    forall m ensures (m in Contents(Rotated(t, true)) <==> m in Contents(t)) &&
                     (m in Contents(t) ==> Contents(Rotated(t, true))[m] == Contents(t)[m]) {
      At(t, m);
      At(r, m);
      At(low, m);
      At(Rotated(t, true), m);
    }
  }

  lemma RaisedLeft<V>(t: Tree<V>)
    requires Sorted(t) && t.Node? && t.left.Node?
    ensures Sorted(Rotated(t, false)) && Contents(Rotated(t, false)) == Contents(t)
  {
    var l := t.left;
    var high := Node(l.right, t.name, t.value, t.right);
    assert l.name in Contents(l);
    forall m | m in Contents(l.right) ensures m in Contents(l) {
    }
    assert AllBefore(l.right, t.name);
    forall m | m in Contents(high) ensures Compare(l.name, m) < 0 {
      CompareOrders(l.name, t.name, m);
    }
    assert Sorted(high);
    forall m ensures (m in Contents(Rotated(t, false)) <==> m in Contents(t)) &&
                     (m in Contents(t) ==> Contents(Rotated(t, false))[m] == Contents(t)[m]) {
      At(t, m);
      At(l, m);
      At(high, m);
      At(Rotated(t, false), m);
    }
  }

  lemma {:induction false} TurnedAtCorrect<V>(t: Tree<V>, path: seq<bool>, toLeft: bool)
    requires Sorted(t)
    ensures Sorted(TurnedAt(t, path, toLeft)) && Contents(TurnedAt(t, path, toLeft)) == Contents(t)
    decreases |path|
  {
    if path == [] || t.Leaf? {
      RotatedCorrect(t, toLeft);
    } else if path[0] {
      TurnedAtCorrect(t.left, path[1..], toLeft);
    } else {
      TurnedAtCorrect(t.right, path[1..], toLeft);
    }
  }

  /** Whatever rotations rebalancing makes, the tree stays sorted and stands for the same map. */
  lemma {:induction false} TurnedCorrect<V>(t: Tree<V>, turns: seq<Turn>)
    requires Sorted(t)
    ensures Sorted(Turned(t, turns)) && Contents(Turned(t, turns)) == Contents(t)
    decreases |turns|
  {
    if turns != [] {
      TurnedAtCorrect(t, turns[0].path, turns[0].toLeft);
      TurnedCorrect(TurnedAt(t, turns[0].path, turns[0].toLeft), turns[1..]);
    }
  }

  // ----- removal -----

  /** The first node in order, and the tree without it */
  function First<V>(t: Tree<V>): (string, V)
    requires t.Node?
  {
    if t.left.Leaf? then (t.name, t.value) else First(t.left)
  }

  function WithoutFirst<V>(t: Tree<V>): Tree<V>
    requires t.Node?
  {
    if t.left.Leaf? then t.right else t.(left := WithoutFirst(t.left))
  }

  /** rb_erase of the root: a missing child is replaced by the other, else the successor takes its place. */
  function Beheaded<V>(t: Tree<V>): Tree<V>
    requires t.Node?
  {
    if t.left.Leaf? then t.right
    else if t.right.Leaf? then t.left
    else Node(t.left, First(t.right).0, First(t.right).1, WithoutFirst(t.right))
  }

  function Erased<V>(t: Tree<V>, name: string): Tree<V> {
    match t
    case Leaf => Leaf
    case Node(left, n, v, right) =>
      if Compare(name, n) == 0 then Beheaded(t)
      else if Compare(name, n) < 0 then t.(left := Erased(left, name))
      else t.(right := Erased(right, name))
  }

  lemma {:induction false} FirstCorrect<V>(t: Tree<V>)
    requires t.Node? && Sorted(t)
    ensures var (n, v) := First(t);
            && n in Contents(t) && Contents(t)[n] == v
            && Sorted(WithoutFirst(t)) && Contents(WithoutFirst(t)) == Contents(t) - {n} && AllAfter(WithoutFirst(t), n)
  {
    At(t, t.name);
    if t.left.Node? {
      FirstCorrect(t.left);
      var n := First(t.left).0;
      At(t, n);
      RemoveSide(Contents(t.left), Contents(t.right), t.name, t.value, n);
      forall m | m in Contents(WithoutFirst(t)) ensures Compare(n, m) < 0 {
        CompareOrders(n, t.name, m);
      }
    } else {
      RootOnly(Contents(t.right), t.name, t.value);
    }
  }

  lemma BeheadedCorrect<V>(t: Tree<V>)
    requires t.Node? && Sorted(t)
    ensures Sorted(Beheaded(t)) && Contents(Beheaded(t)) == Contents(t) - {t.name}
  {
    At(t, t.name);
    if t.left.Leaf? {
      RootOnly(Contents(t.right), t.name, t.value);
    } else if t.right.Leaf? {
      RootOnly(Contents(t.left), t.name, t.value);
    } else {
      FirstCorrect(t.right);
      var n := First(t.right).0;
      At(t, n);
      ReplaceRoot(Contents(t.left), Contents(t.right), t.name, t.value, n);
      forall m | m in Contents(t.left) ensures Compare(m, n) < 0 {
        CompareOrders(m, t.name, n);
      }
    }
  }

  lemma {:induction false} ErasedCorrect<V>(t: Tree<V>, name: string)
    requires Sorted(t)
    ensures Sorted(Erased(t, name)) && Contents(Erased(t, name)) == Contents(t) - {name}
  {
    if t.Node? {
      OneSide(t, name);
      At(t, name);
      if name != t.name {
        RemoveSide(Contents(t.left), Contents(t.right), t.name, t.value, name);
      }
      if name == t.name {
        BeheadedCorrect(t);
      } else if Compare(name, t.name) < 0 {
        ErasedCorrect(t.left, name);
      } else {
        ErasedCorrect(t.right, name);
      }
    }
  }

  // ----- changing a value -----

  /** Writing through the entry that a search returned */
  function Assigned<V>(t: Tree<V>, name: string, value: V): Tree<V> {
    match t
    case Leaf => Leaf
    case Node(left, n, v, right) =>
      if Compare(name, n) == 0 then t.(value := value)
      else if Compare(name, n) < 0 then t.(left := Assigned(left, name, value))
      else t.(right := Assigned(right, name, value))
  }

  lemma {:induction false} AssignedCorrect<V>(t: Tree<V>, name: string, value: V)
    requires Sorted(t) && name in Contents(t)
    ensures Sorted(Assigned(t, name, value)) && Contents(Assigned(t, name, value)) == Contents(t)[name := value]
  {
    OneSide(t, name);
    At(t, name);
    if name != t.name {
      UpdateSide(Contents(t.left), Contents(t.right), t.name, t.value, name, value);
    }
    if Compare(name, t.name) < 0 {
      AssignedCorrect(t.left, name, value);
    } else if Compare(name, t.name) > 0 {
      AssignedCorrect(t.right, name, value);
    }
  }
}
