/** The workspaces of an output: numbers on a grid, ids, moving to a neighbour, and the
    list that a client gets. */
module Workspaces {
  import opened Helpers
  import opened Numbers

  datatype Grid = Grid(width: nat, height: nat)

  datatype Point = Point(x: int, y: int)

  const INVALID_WORKSPACE := Point(-1, -1)

  const INT_MAX := 0x7FFF_FFFF

  predicate Valid(g: Grid, p: Point) {
    0 <= p.x < g.width && 0 <= p.y < g.height
  }

  function Count(g: Grid): nat {
    g.width * g.height
  }

  /** get_workspace_index. */
  function Index(g: Grid, p: Point): int {
    p.x + p.y * g.width + 1
  }

  /** The workspace with a number, counted along the rows. */
  function PointAt(g: Grid, index: int): Point {
    if 1 <= index <= Count(g) then (NoEmptyGrid(g, index); Point((index - 1) % g.width, (index - 1) / g.width))
    else INVALID_WORKSPACE
  }

  lemma NoEmptyGrid(g: Grid, index: int)
    requires 1 <= index <= Count(g)
    ensures g.width > 0 && g.height > 0
  {
  }

  // ---------- The numbers 1..w*h and the valid points are in bijection ----------

  lemma Products(a: int, b: int, c: int)
    requires a <= b && c >= 0
    ensures a * c <= b * c
  {
  }

  /** Quotient and remainder are unique. */
  lemma Division(n: int, w: int, q: int, r: int)
    requires w > 0 && n == q * w + r && 0 <= r < w
    ensures n / w == q && n % w == r
  {
    var d := n / w - q;
    assert d * w == r - n % w;
    if d >= 1 {
      Products(1, d, w);
    } else if d <= -1 {
      Products(d, -1, w);
    }
  }

  /** Every number from 1 to w*h is the number of a valid point. */
  lemma IndexOfPointAt(g: Grid, index: int)
    requires 1 <= index <= Count(g)
    ensures Valid(g, PointAt(g, index)) && Index(g, PointAt(g, index)) == index
  {
    NoEmptyGrid(g, index);
    var q := (index - 1) / g.width;
    if q >= g.height {
      Products(g.height, q, g.width);
    }
  }

  /** Every valid point has a number from 1 to w*h, and is the point with that number. */
  lemma PointAtIndex(g: Grid, p: Point)
    requires Valid(g, p)
    ensures 1 <= Index(g, p) <= Count(g) && PointAt(g, Index(g, p)) == p
  {
    Products(0, p.y, g.width);
    Products(p.y, g.height - 1, g.width);
    assert (g.height - 1) * g.width == Count(g) - g.width;
    Division(Index(g, p) - 1, g.width, p.y, p.x);
  }

  /** get_workspace_at_index: searches the grid, column by column. */
  method GetWorkspaceAtIndex(g: Grid, index: int) returns (p: Point)
    ensures p == PointAt(g, index)
    ensures Valid(g, p) <==> 1 <= index <= Count(g)
  {
    for x := 0 to g.width
      invariant forall q: Point :: Valid(g, q) && q.x < x ==> Index(g, q) != index
    {
      for y := 0 to g.height
        invariant forall q: Point :: Valid(g, q) && (q.x < x || (q.x == x && q.y < y)) ==> Index(g, q) != index
      {
        var point := Point(x, y);
        if Index(g, point) == index {
          PointAtIndex(g, point);
          return point;
        }
      }
    }
    if 1 <= index <= Count(g) {
      IndexOfPointAt(g, index);
      assert false;
    }
    return INVALID_WORKSPACE;
  }

  // ---------- next and prev ----------

  /** workspace_next, when the current workspace has this number. */
  method WorkspaceNext(g: Grid, index: int, current: Point) returns (p: Point)
    requires Valid(g, current) && index == Index(g, current)
    ensures p == Next(g, current)
  {
    var next := GetWorkspaceAtIndex(g, index + 1);
    if next != INVALID_WORKSPACE {
      return next;
    }
    return current;
  }

  /** workspace_prev, when the current workspace has this number. */
  method WorkspacePrev(g: Grid, index: int, current: Point) returns (p: Point)
    requires Valid(g, current) && index == Index(g, current)
    ensures p == Prev(g, current)
  {
    var prev := GetWorkspaceAtIndex(g, index - 1);
    if prev != INVALID_WORKSPACE {
      return prev;
    }
    return current;
  }

  function Next(g: Grid, p: Point): Point {
    var q := PointAt(g, Index(g, p) + 1);
    if q != INVALID_WORKSPACE then q else p
  }

  function Prev(g: Grid, p: Point): Point {
    var q := PointAt(g, Index(g, p) - 1);
    if q != INVALID_WORKSPACE then q else p
  }

  lemma NextMoves(g: Grid, p: Point)
    requires Valid(g, p)
    ensures Valid(g, Next(g, p)) && Index(g, Next(g, p)) == Min(Index(g, p) + 1, Count(g))
  {
    PointAtIndex(g, p);
    if Index(g, p) < Count(g) { IndexOfPointAt(g, Index(g, p) + 1); }
  }

  lemma PrevMoves(g: Grid, p: Point)
    requires Valid(g, p)
    ensures Valid(g, Prev(g, p)) && Index(g, Prev(g, p)) == Max(Index(g, p) - 1, 1)
  {
    PointAtIndex(g, p);
    if Index(g, p) > 1 { IndexOfPointAt(g, Index(g, p) - 1); }
  }

  lemma PointIs(g: Grid, p: Point, index: int)
    requires Valid(g, p) && index == Index(g, p)
    ensures PointAt(g, index) == p
  {
    PointAtIndex(g, p);
  }

  /** The next workspace is the one to the right, behind the last column the first one of the
      row below, and the last workspace stays where it is. */
  lemma NextIsToTheRight(g: Grid, p: Point)
    requires Valid(g, p)
    ensures Next(g, p) == if p.x + 1 < g.width then Point(p.x + 1, p.y)
                          else if p.y + 1 < g.height then Point(0, p.y + 1)
                          else p
  {
    PointAtIndex(g, p);
    if p.x + 1 < g.width {
      PointIs(g, Point(p.x + 1, p.y), Index(g, p) + 1);
    } else if p.y + 1 < g.height {
      PointIs(g, Point(0, p.y + 1), Index(g, p) + 1);
    }
  }

  /** The previous one is the one to the left, in front of the first column the last one of
      the row above, and the first workspace stays where it is. */
  lemma PrevIsToTheLeft(g: Grid, p: Point)
    requires Valid(g, p)
    ensures Prev(g, p) == if p.x > 0 then Point(p.x - 1, p.y)
                          else if p.y > 0 then Point(g.width - 1, p.y - 1)
                          else p
  {
    PointAtIndex(g, p);
    if p.x > 0 {
      PointIs(g, Point(p.x - 1, p.y), Index(g, p) - 1);
    } else if p.y > 0 {
      PointIs(g, Point(g.width - 1, p.y - 1), Index(g, p) - 1);
    }
  }

  function Nexts(g: Grid, p: Point, k: nat): Point
    decreases k
  {
    if k == 0 then p else Nexts(g, Next(g, p), k - 1)
  }

  function Prevs(g: Grid, p: Point, k: nat): Point
    decreases k
  {
    if k == 0 then p else Prevs(g, Prev(g, p), k - 1)
  }

  lemma {:induction false} NextsMove(g: Grid, p: Point, k: nat)
    requires Valid(g, p)
    ensures Valid(g, Nexts(g, p, k)) && Index(g, Nexts(g, p, k)) == Min(Index(g, p) + k, Count(g))
    decreases k
  {
    PointAtIndex(g, p);
    if k > 0 {
      NextMoves(g, p);
      NextsMove(g, Next(g, p), k - 1);
    }
  }

  lemma {:induction false} PrevsMove(g: Grid, p: Point, k: nat)
    requires Valid(g, p)
    ensures Valid(g, Prevs(g, p, k)) && Index(g, Prevs(g, p, k)) == Max(Index(g, p) - k, 1)
    decreases k
  {
    PointAtIndex(g, p);
    if k > 0 {
      PrevMoves(g, p);
      PrevsMove(g, Prev(g, p), k - 1);
    }
  }

  /** Going on k times and back k times ends at the start exactly if the way on was not
      cut short by the last workspace, or the start was the first one. */
  lemma ThereAndBack(g: Grid, p: Point, k: nat)
    requires Valid(g, p)
    ensures Prevs(g, Nexts(g, p, k), k) == p <==> Index(g, p) + k <= Count(g) || Index(g, p) == 1
  {
    PointAtIndex(g, p);
    NextsMove(g, p, k);
    PrevsMove(g, Nexts(g, p, k), k);
    PointAtIndex(g, Prevs(g, Nexts(g, p, k), k));
  }

  // ---------- Ids: decimal digits put behind each other ----------

  /** The number that a string of digits stands for. */
  function Value(s: string): nat
    requires Digits(s)
  {
    if s == [] then 0
    else (assert IsDigit(s[|s| - 1]); Value(s[..|s| - 1]) * 10 + (s[|s| - 1] as int - '0' as int))
  }

  /** std::stoi on digits, which throws if the number does not fit. */
  function Stoi(s: string): Option<nat>
    requires Digits(s)
  {
    if Value(s) <= INT_MAX then Some(Value(s)) else None
  }

  /** get_workspace_id. */
  function Id(output: nat, index: nat): Option<nat> {
    Stoi(ToString(output) + ToString(index))
  }

  function Pow10(k: nat): (p: nat)
    ensures p >= 1
  {
    if k == 0 then 1 else 10 * Pow10(k - 1)
  }

  lemma {:induction false} ValueOfString(n: nat)
    ensures Value(ToString(n)) == n
  {
    var s := ToString(n);
    if n >= 10 {
      assert s[..|s| - 1] == ToString(n / 10);
      ValueOfString(n / 10);
    }
  }

  lemma {:induction false} ValueOfConcat(a: string, b: string)
    requires Digits(a) && Digits(b)
    ensures Digits(a + b) && Value(a + b) == Value(a) * Pow10(|b|) + Value(b)
  {
    if b == [] {
      assert a + b == a;
    } else {
      var n := |b| - 1;
      ValueOfConcat(a, b[..n]);
      assert (a + b)[..|a + b| - 1] == a + b[..n];
      Shift(Value(a), Pow10(n));
    }
  }

  lemma Shift(a: int, p: int)
    ensures a * p * 10 == a * (10 * p)
  {
  }

  lemma {:induction false} LongerNumbers(i: nat, j: nat)
    requires i <= j
    ensures |ToString(i)| <= |ToString(j)|
  {
    if i >= 10 { LongerNumbers(i / 10, j / 10); }
  }

  lemma {:induction false} Pow10Grows(a: nat, b: nat)
    requires a <= b
    ensures Pow10(a) <= Pow10(b)
  {
    if a > 0 { Pow10Grows(a - 1, b - 1); }
  }

  function IdNumber(output: nat, index: nat): nat {
    output * Pow10(|ToString(index)|) + index
  }

  lemma IdIsNumber(output: nat, index: nat)
    ensures Id(output, index) == if IdNumber(output, index) <= INT_MAX then Some(IdNumber(output, index)) else None
  {
    ValueOfConcat(ToString(output), ToString(index));
    ValueOfString(output);
    ValueOfString(index);
  }

  lemma IdNumbersGrow(output: nat, i: nat, j: nat)
    requires i < j
    ensures IdNumber(output, i) < IdNumber(output, j)
  {
    LongerNumbers(i, j);
    Pow10Grows(|ToString(i)|, |ToString(j)|);
    Products(Pow10(|ToString(i)|), Pow10(|ToString(j)|), output);
  }

  /** On one output, ids grow with the numbers, also where the number of digits changes
      and on output 0, whose leading zero does not count. The id of a lower number fits
      if that of a higher one does. */
  lemma IdsGrow(output: nat, i: nat, j: nat)
    requires i < j && Id(output, j).Some?
    ensures Id(output, i).Some? && Id(output, i).value < Id(output, j).value
  {
    IdIsNumber(output, i);
    IdIsNumber(output, j);
    IdNumbersGrow(output, i, j);
  }

  // ---------- The list of workspaces ----------

  /** What of a workspace's description depends on its number. */
  datatype Workspace = Workspace(id: nat, num: nat, name: string, gridPosition: Point)

  /** describe_workspace; the conversion of the id may throw. */
  function Describe(output: nat, g: Grid, p: Point): Option<Workspace>
    requires Valid(g, p)
  {
    PointAtIndex(g, p);
    var index := Index(g, p);
    match Id(output, index)
    case None => None
    case Some(id) => Some(Workspace(id, index, ToString(index), p))
  }

  /** A list in which each element describes a workspace of the output. */
  predicate Describes(v: seq<Workspace>, output: nat, g: Grid) {
    forall k :: 0 <= k < |v| ==>
      && Valid(g, v[k].gridPosition) && Describe(output, g, v[k].gridPosition) == Some(v[k])
  }

  predicate NoDuplicates<T(==)>(v: seq<T>) {
    forall i, j :: 0 <= i < j < |v| ==> v[i] != v[j]
  }

  predicate SortedById(v: seq<Workspace>) {
    forall i, j :: 0 <= i < j < |v| ==> v[i].id <= v[j].id
  }

  predicate Permutation<T(==)>(a: seq<T>, b: seq<T>) {
    multiset(a) == multiset(b)
  }

  lemma InsertSorted(r: seq<Workspace>, k: nat, w: Workspace)
    requires SortedById(r) && k <= |r|
    requires forall j :: 0 <= j < k ==> r[j].id <= w.id
    requires k < |r| ==> w.id < r[k].id
    ensures SortedById(r[..k] + [w] + r[k..])
  {
    var s := r[..k] + [w] + r[k..];
    forall i, j | 0 <= i < j < |s| ensures s[i].id <= s[j].id {
      assert j > k ==> s[j] == r[j - 1];
      assert i > k ==> s[i] == r[i - 1];
    }
  }

  lemma InsertPermutes(r: seq<Workspace>, k: nat, w: Workspace, v: seq<Workspace>, i: nat)
    requires k <= |r| && i < |v| && v[i] == w && Permutation(r, v[..i])
    ensures Permutation(r[..k] + [w] + r[k..], v[..i + 1])
  {
    assert r == r[..k] + r[k..];
    assert v[..i + 1] == v[..i] + [w];
  }

  /** Puts one element into a sorted list, behind those with ids up to its own. */
  method Insert(r: seq<Workspace>, w: Workspace, ghost v: seq<Workspace>, ghost i: nat) returns (s: seq<Workspace>)
    requires SortedById(r) && i < |v| && v[i] == w && Permutation(r, v[..i])
    ensures SortedById(s) && Permutation(s, v[..i + 1])
  {
    var k := 0;
    while k < |r| && r[k].id <= w.id
      invariant 0 <= k <= |r| && forall j :: 0 <= j < k ==> r[j].id <= w.id
    {
      k := k + 1;
    }
    InsertSorted(r, k, w);
    InsertPermutes(r, k, w, v, i);
    return r[..k] + [w] + r[k..];
  }

  /** Stands for std::sort with a comparison by id: what it does to elements with equal
      ids is not used. */
  method SortById(v: seq<Workspace>) returns (r: seq<Workspace>)
    ensures Permutation(r, v) && SortedById(r)
  {
    r := [];
    for i := 0 to |v|
      invariant Permutation(r, v[..i]) && SortedById(r)
    {
      r := Insert(r, v[i], v, i);
    }
    assert v[..|v|] == v;
  }

  lemma {:induction false} CountsOf<T>(v: seq<T>)
    requires NoDuplicates(v)
    ensures forall t :: multiset(v)[t] <= 1
  {
    if v != [] {
      var n := |v| - 1;
      CountsOf(v[..n]);
      assert v == v[..n] + [v[n]];
      assert v[n] !in v[..n];
    }
  }

  lemma TwiceIn<T>(v: seq<T>, i: nat, j: nat)
    requires i < j < |v| && v[i] == v[j]
    ensures multiset(v)[v[i]] >= 2
  {
    assert v == v[..j] + [v[j]] + v[j + 1..];
    assert v[i] in v[..j];
  }

  lemma PermutationKeeps<T>(r: seq<T>, v: seq<T>)
    requires Permutation(r, v) && NoDuplicates(v)
    ensures NoDuplicates(r) && |r| == |v| && forall t :: t in r <==> t in v
  {
    CountsOf(v);
    forall i, j | 0 <= i < j < |r| ensures r[i] != r[j] {
      if r[i] == r[j] { TwiceIn(r, i, j); }
    }
    assert |multiset(r)| == |multiset(v)|;
    assert forall t :: t in r <==> t in multiset(r);
  }

  /** In a sorted list of all workspaces the k-th has the number k+1. */
  lemma NumbersAreInOrder(r: seq<Workspace>, output: nat, g: Grid)
    requires Describes(r, output, g) && NoDuplicates(r) && SortedById(r) && |r| == Count(g)
    ensures forall k :: 0 <= k < |r| ==> r[k].num == k + 1
  {
    forall k | 0 <= k < |r| ensures 1 <= r[k].num <= Count(g) && r[k].gridPosition == PointAt(g, r[k].num) {
      PointAtIndex(g, r[k].gridPosition);
    }
    forall k | 0 <= k < |r| - 1 ensures r[k].num < r[k + 1].num {
      assert r[k] != r[k + 1];
      if r[k].num > r[k + 1].num {
        IdsGrow(output, r[k + 1].num, r[k].num);
      }
    }
    forall k | 0 <= k < |r| ensures r[k].num == k + 1 {
      AtLeast(r, k);
      AtMost(r, k, Count(g));
    }
  }

  lemma {:induction false} AtLeast(r: seq<Workspace>, k: nat)
    requires k < |r| && 1 <= r[0].num && forall i :: 0 <= i < |r| - 1 ==> r[i].num < r[i + 1].num
    ensures r[k].num >= k + 1
  {
    if k > 0 { AtLeast(r, k - 1); }
  }

  lemma {:induction false} AtMost(r: seq<Workspace>, k: nat, n: nat)
    requires k < |r| && r[|r| - 1].num <= n && forall i :: 0 <= i < |r| - 1 ==> r[i].num < r[i + 1].num
    ensures r[k].num <= n - (|r| - 1 - k)
    decreases |r| - k
  {
    if k < |r| - 1 { AtMost(r, k + 1, n); }
  }

  /** All workspaces have ids exactly if the last one has. */
  lemma LastIdDecides(output: nat, g: Grid, p: Point)
    requires Valid(g, p) && Id(output, Count(g)).Some?
    ensures Describe(output, g, p).Some?
  {
    PointAtIndex(g, p);
    if Index(g, p) < Count(g) { IdsGrow(output, Index(g, p), Count(g)); }
  }

  lemma LastPoint(g: Grid)
    requires Count(g) > 0
    ensures Valid(g, Point(g.width - 1, g.height - 1)) && Index(g, Point(g.width - 1, g.height - 1)) == Count(g)
  {
    NoEmptyGrid(g, Count(g));
    assert (g.height - 1) * g.width == Count(g) - g.width;
  }

  /** What the enumeration has listed when it is about to visit a point. */
  predicate ListedBefore(v: seq<Workspace>, x: int, y: int) {
    forall k :: 0 <= k < |v| ==> v[k].gridPosition.x < x || (v[k].gridPosition.x == x && v[k].gridPosition.y < y)
  }

  lemma AddDistinct(v: seq<Workspace>, w: Workspace)
    requires NoDuplicates(v) && w !in v
    ensures NoDuplicates(v + [w])
  {
  }

  lemma AddDescribed(v: seq<Workspace>, output: nat, g: Grid, w: Workspace)
    requires Describes(v, output, g) && Valid(g, w.gridPosition) && Describe(output, g, w.gridPosition) == Some(w)
    ensures Describes(v + [w], output, g)
  {
  }

  lemma AddListed(v: seq<Workspace>, w: Workspace)
    requires ListedBefore(v, w.gridPosition.x, w.gridPosition.y)
    ensures w !in v && ListedBefore(v + [w], w.gridPosition.x, w.gridPosition.y + 1)
  {
  }

  lemma ListPoint(v: seq<Workspace>, output: nat, g: Grid, x: nat, y: nat, w: Workspace)
    requires Describes(v, output, g) && NoDuplicates(v) && ListedBefore(v, x, y)
    requires Valid(g, Point(x, y)) && Describe(output, g, Point(x, y)) == Some(w)
    ensures Describes(v + [w], output, g) && NoDuplicates(v + [w]) && ListedBefore(v + [w], x, y + 1)
  {
    assert w.gridPosition == Point(x, y);
    AddListed(v, w);
    AddDistinct(v, w);
    AddDescribed(v, output, g, w);
  }

  predicate IsWorkspace(w: Workspace, output: nat, g: Grid, index: nat) {
    && Id(output, index) == Some(w.id) && w.num == index
    && w.name == ToString(index) && w.gridPosition == PointAt(g, index)
  }

  /** get_workspaces_nodes: enumerates column by column, sorts by id. The nodes are the
      workspaces 1, 2, ... w*h, in this order; it fails exactly if the id of the last one
      does not fit an int. */
  method GetWorkspacesNodes(output: nat, g: Grid) returns (nodes: Option<seq<Workspace>>)
    ensures nodes.Some? <==> Count(g) == 0 || Id(output, Count(g)).Some?
    ensures nodes.Some? ==>
              && |nodes.value| == Count(g)
              && forall k :: 0 <= k < Count(g) ==> IsWorkspace(nodes.value[k], output, g, k + 1)
  {
    var vector: seq<Workspace> := [];
    for x := 0 to g.width
      invariant |vector| == x * g.height && Describes(vector, output, g) && NoDuplicates(vector)
      invariant ListedBefore(vector, x, 0)
      invariant x == g.width && g.height > 0 && x > 0 ==> Id(output, Count(g)).Some?
    {
      for y := 0 to g.height
        invariant |vector| == x * g.height + y && Describes(vector, output, g) && NoDuplicates(vector)
        invariant ListedBefore(vector, x, y)
        invariant x == g.width - 1 && y == g.height && y > 0 ==> Id(output, Count(g)).Some?
      {
        var workspace := Describe(output, g, Point(x, y));
        if workspace.None? {
          PointAtIndex(g, Point(x, y));
          if Id(output, Count(g)).Some? { LastIdDecides(output, g, Point(x, y)); }
          return None;
        }
        ListPoint(vector, output, g, x, y, workspace.value);
        vector := vector + [workspace.value];
        if x == g.width - 1 && y == g.height - 1 { LastPoint(g); }
      }
      assert (x + 1) * g.height == x * g.height + g.height;
    }
    var sorted := SortById(vector);
    PermutationKeeps(sorted, vector);
    assert Describes(sorted, output, g) by {
      forall k | 0 <= k < |sorted|
        ensures Valid(g, sorted[k].gridPosition) && Describe(output, g, sorted[k].gridPosition) == Some(sorted[k])
      {
        assert sorted[k] in vector;
      }
    }
    NumbersAreInOrder(sorted, output, g);
    forall k | 0 <= k < Count(g) ensures IsWorkspace(sorted[k], output, g, k + 1) {
      PointAtIndex(g, sorted[k].gridPosition);
    }
    return Some(sorted);
  }
}
