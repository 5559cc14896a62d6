/**
 The todo store: the ordered list of tasks (newest first), the counter that numbers new tasks,
 and the three operations that change the list: add, toggle and delete.
 */
module TodoStore {
  import opened Text
  import opened Lists

  /**
   A task id. The store only ever makes two shapes of id: the seed tasks' "demo-N" and the
   "todo-C-S" of an added task, where C is the value the counter had and S the clock reading.
   IdText gives the string; IdTextInjective shows that comparing strings is comparing ids.
   */
  datatype TodoId = Demo(n: nat) | Generated(counter: nat, stamp: nat)

  /** A task; `createdAt` is the clock reading when it was made and plays no part in ordering. */
  datatype Todo = Todo(id: TodoId, text: string, completed: bool, createdAt: int)

  // ---------------------------------------------------------------------------------------
  // Id strings

  function DigitChar(d: nat): char
    requires d < 10
  {
    (48 + d) as char
  }

  /** A natural number written in decimal, as a template literal renders it. */
  function Decimal(n: nat): string
    decreases n
  {
    if n < 10 then [DigitChar(n)] else Decimal(n / 10) + [DigitChar(n % 10)]
  }

  predicate IsDigits(s: string) {
    forall k :: 0 <= k < |s| ==> '0' <= s[k] <= '9'
  }

  /** The id as the string the source stores in `id`. */
  function IdText(id: TodoId): string {
    match id
    case Demo(n) => "demo-" + Decimal(n)
    case Generated(c, s) => "todo-" + Decimal(c) + "-" + Decimal(s)
  }

  /** A decimal rendering is a non-empty string of digits. */
  lemma {:induction false} DecimalDigits(n: nat)
    ensures |Decimal(n)| >= 1 && IsDigits(Decimal(n))
    decreases n
  {
    if n >= 10 {
      DecimalDigits(n / 10);
    }
  }

  /** Different numbers are written differently. */
  lemma {:induction false} DecimalInjective(a: nat, b: nat)
    requires Decimal(a) == Decimal(b)
    ensures a == b
    decreases a
  {
    if a < 10 && b < 10 {
      assert Decimal(a)[0] == Decimal(b)[0];
    } else if a < 10 {
      DecimalDigits(b / 10);
    } else if b < 10 {
      DecimalDigits(a / 10);
    } else {
      var da, db := Decimal(a), Decimal(b);
      assert da[|da| - 1] == db[|db| - 1];
      assert a % 10 == b % 10;
      assert da[..|da| - 1] == Decimal(a / 10);
      assert db[..|db| - 1] == Decimal(b / 10);
      DecimalInjective(a / 10, b / 10);
    }
  }

  lemma DashAfter(x: string, y: string)
    ensures (x + "-" + y)[|x|] == '-'
  {
  }

  /** Two digit strings joined by a dash can be split back apart at the dash. */
  lemma SplitAtDash(x: string, y: string, u: string, v: string)
    requires IsDigits(x) && IsDigits(u)
    requires x + "-" + y == u + "-" + v
    ensures x == u && y == v
  {
    var l, r := x + "-" + y, u + "-" + v;
    if |x| < |u| {
      DashAfter(x, y);
      assert false;
    } else if |u| < |x| {
      DashAfter(u, v);
      assert false;
    }
    assert x == l[..|x|] && u == r[..|u|];
    assert y == l[|x| + 1..] && v == r[|u| + 1..];
  }

  lemma IdTextHead(id: TodoId)
    ensures |IdText(id)| > 0 && IdText(id)[0] == if id.Demo? then 'd' else 't'
  {
  }

  lemma DemoTextInjective(n: nat, m: nat)
    requires IdText(Demo(n)) == IdText(Demo(m))
    ensures n == m
  {
    var t := IdText(Demo(n));
    assert Decimal(n) == t[5..];
    assert Decimal(m) == IdText(Demo(m))[5..];
    DecimalInjective(n, m);
  }

  lemma GeneratedTextInjective(c: nat, s: nat, c': nat, s': nat)
    requires IdText(Generated(c, s)) == IdText(Generated(c', s'))
    ensures c == c' && s == s'
  {
    var x, x' := Decimal(c) + "-" + Decimal(s), Decimal(c') + "-" + Decimal(s');
    assert IdText(Generated(c, s)) == "todo-" + x;
    assert IdText(Generated(c', s')) == "todo-" + x';
    assert x == IdText(Generated(c, s))[5..];
    assert x' == IdText(Generated(c', s'))[5..];
    DecimalDigits(c);
    DecimalDigits(c');
    SplitAtDash(Decimal(c), Decimal(s), Decimal(c'), Decimal(s'));
    DecimalInjective(c, c');
    DecimalInjective(s, s');
  }

  /** Different ids have different strings, so the source's string comparison is id equality. */
  lemma IdTextInjective(a: TodoId, b: TodoId)
    ensures IdText(a) == IdText(b) <==> a == b
  {
    if IdText(a) == IdText(b) {
      if a.Demo? && b.Demo? {
        DemoTextInjective(a.n, b.n);
      } else if a.Generated? && b.Generated? {
        GeneratedTextInjective(a.counter, a.stamp, b.counter, b.stamp);
      } else {
        IdTextHead(a);
        IdTextHead(b);
        assert false;
      }
    }
  }

  // ---------------------------------------------------------------------------------------
  // Facts about a list of tasks

  predicate HasId(ts: seq<Todo>, id: TodoId) {
    exists k :: 0 <= k < |ts| && ts[k].id == id
  }

  /** No two tasks of the list share an id. */
  predicate IdsDistinct(ts: seq<Todo>) {
    forall i, j :: 0 <= i < j < |ts| ==> ts[i].id != ts[j].id
  }

  /** The id was made before the counter reached `nextId` (seed ids are never made by it). */
  predicate IssuedBefore(id: TodoId, nextId: nat) {
    match id
    case Demo(_) => true
    case Generated(c, _) => c < nextId
  }

  predicate AllIssuedBefore(ts: seq<Todo>, nextId: nat) {
    forall k :: 0 <= k < |ts| ==> IssuedBefore(ts[k].id, nextId)
  }

  // ---------------------------------------------------------------------------------------
  // The seed list and the list transforms

  /** The three demo tasks the store starts with; `now` is the clock reading at start. */
  function Seed(now: int): seq<Todo> {
    [ Todo(Demo(1), "Welcome to your Todo list!", false, now - 2000),
      Todo(Demo(2), "Swipe left to delete a task", false, now - 1000),
      Todo(Demo(3), "Tap the circle to complete", true, now) ]
  }

  /** The seed holds three tasks with distinct "demo-" ids, two active and one completed. */
  lemma SeedFacts(now: int)
    ensures |Seed(now)| == 3 && IdsDistinct(Seed(now)) && AllIssuedBefore(Seed(now), 0)
    ensures IdText(Seed(now)[0].id) == "demo-1" && IdText(Seed(now)[1].id) == "demo-2"
    ensures IdText(Seed(now)[2].id) == "demo-3"
    ensures !Seed(now)[0].completed && !Seed(now)[1].completed && Seed(now)[2].completed
  {
  }

  /** The task `addTodo` puts at the head of the list. */
  function NewTodo(counter: nat, trimmed: string, idNow: nat, createdNow: int): Todo {
    Todo(Generated(counter, idNow), trimmed, false, createdNow)
  }

  /** The callback of `toggleTodo`'s `map`: flip `completed` on the task with that id. */
  function Flip(t: Todo, id: TodoId): Todo {
    if t.id == id then t.(completed := !t.completed) else t
  }

  /** `toggleTodo`'s new list. */
  function Toggled(ts: seq<Todo>, id: TodoId): seq<Todo> {
    if ts == [] then [] else [Flip(ts[0], id)] + Toggled(ts[1..], id)
  }

  /** `deleteTodo`'s new list: the tasks whose id differs. */
  function Without(ts: seq<Todo>, id: TodoId): seq<Todo> {
    Filter(ts, (t: Todo) => t.id != id)
  }

  // ---------------------------------------------------------------------------------------
  // Add

  /**
   The counter value has never been used, so the new task's id differs from every id in the
   list, and the list with the new task at its head keeps ids distinct and issued below the
   incremented counter.
   */
  lemma AddKeepsIdsDistinct(ts: seq<Todo>, nextId: nat, trimmed: string, idNow: nat, createdNow: int)
    requires IdsDistinct(ts) && AllIssuedBefore(ts, nextId)
    ensures !HasId(ts, Generated(nextId, idNow))
    ensures IdsDistinct([NewTodo(nextId, trimmed, idNow, createdNow)] + ts)
    ensures AllIssuedBefore([NewTodo(nextId, trimmed, idNow, createdNow)] + ts, nextId + 1)
  {
    var r := [NewTodo(nextId, trimmed, idNow, createdNow)] + ts;
    forall k | 0 <= k < |ts| ensures ts[k].id != Generated(nextId, idNow) {
      assert IssuedBefore(ts[k].id, nextId);
    }
    forall i, j | 0 <= i < j < |r| ensures r[i].id != r[j].id {
      if i == 0 {
        assert r[j] == ts[j - 1];
      } else {
        assert r[i] == ts[i - 1] && r[j] == ts[j - 1];
      }
    }
  }

  // ---------------------------------------------------------------------------------------
  // Toggle

  /**
   Toggling keeps the length, the order, every id, text and creation time, and flips
   `completed` exactly on the tasks whose id matches.
   */
  lemma {:induction false} ToggledAt(ts: seq<Todo>, id: TodoId)
    ensures |Toggled(ts, id)| == |ts|
    ensures forall k :: 0 <= k < |ts| ==>
      var r := Toggled(ts, id)[k];
      r.id == ts[k].id && r.text == ts[k].text && r.createdAt == ts[k].createdAt
      && r.completed == (if ts[k].id == id then !ts[k].completed else ts[k].completed)
  {
    if ts != [] {
      ToggledAt(ts[1..], id);
      forall k | 1 <= k < |ts| ensures Toggled(ts, id)[k] == Toggled(ts[1..], id)[k - 1] {
      }
    }
  }

  /** Toggling an id no task has leaves the list as it was. */
  lemma {:induction false} ToggleUnknownIsNoop(ts: seq<Todo>, id: TodoId)
    requires !HasId(ts, id)
    ensures Toggled(ts, id) == ts
  {
    ToggledAt(ts, id);
    var r := Toggled(ts, id);
    forall k | 0 <= k < |ts| ensures r[k] == ts[k] {
      assert ts[k].id != id;
    }
  }

  /** Toggling the same id twice restores the list. */
  lemma {:induction false} ToggleTwiceRestores(ts: seq<Todo>, id: TodoId)
    ensures Toggled(Toggled(ts, id), id) == ts
  {
    var r := Toggled(ts, id);
    ToggledAt(ts, id);
    ToggledAt(r, id);
    var rr := Toggled(r, id);
    forall k | 0 <= k < |ts| ensures rr[k] == ts[k] {
    }
  }

  /** Toggling keeps ids distinct and issued below the same counter. */
  lemma ToggleKeepsIds(ts: seq<Todo>, id: TodoId, nextId: nat)
    ensures IdsDistinct(Toggled(ts, id)) == IdsDistinct(ts)
    ensures AllIssuedBefore(Toggled(ts, id), nextId) == AllIssuedBefore(ts, nextId)
  {
    ToggledAt(ts, id);
  }

  // ---------------------------------------------------------------------------------------
  // Delete

  /** What is left is exactly the tasks of the list whose id differs. */
  lemma WithoutMembers(ts: seq<Todo>, id: TodoId)
    ensures forall t :: t in Without(ts, id) <==> t in ts && t.id != id
  {
    FilterMembers(ts, (t: Todo) => t.id != id);
  }

  /** Deleting an id no task has leaves the list as it was. */
  lemma DeleteUnknownIsNoop(ts: seq<Todo>, id: TodoId)
    requires !HasId(ts, id)
    ensures Without(ts, id) == ts
  {
    FilterKeepsAll(ts, (t: Todo) => t.id != id);
  }

  /**
   With distinct ids, deleting the id of the task at position k removes that one task and
   keeps the others in their order, so the list becomes one shorter.
   */
  lemma {:induction false} DeleteAt(ts: seq<Todo>, k: nat)
    requires IdsDistinct(ts) && k < |ts|
    ensures Without(ts, ts[k].id) == ts[..k] + ts[k + 1..]
    ensures |Without(ts, ts[k].id)| == |ts| - 1
  {
    var id := ts[k].id;
    if k == 0 {
      assert !HasId(ts[1..], id) by {
        forall m | 0 <= m < |ts[1..]| ensures ts[1..][m].id != id {
          assert ts[1..][m] == ts[m + 1];
        }
      }
      DeleteUnknownIsNoop(ts[1..], id);
    } else {
      var tail := ts[1..];
      assert tail[k - 1] == ts[k];
      assert IdsDistinct(tail) by {
        forall i, j | 0 <= i < j < |tail| ensures tail[i].id != tail[j].id {
          assert tail[i] == ts[i + 1] && tail[j] == ts[j + 1];
        }
      }
      DeleteAt(tail, k - 1);
      assert ts[0].id != id;
      assert tail[..k - 1] + tail[k..] == ts[1..k] + ts[k + 1..];
      assert ts[..k] == [ts[0]] + ts[1..k];
    }
  }

  /** Deleting twice is deleting once. */
  lemma DeleteIdempotent(ts: seq<Todo>, id: TodoId)
    ensures Without(Without(ts, id), id) == Without(ts, id)
  {
    FilterIdempotent(ts, (t: Todo) => t.id != id);
  }

  /** Deleting keeps ids distinct and issued below the same counter, and drops the id. */
  lemma {:induction false} DeleteKeepsIds(ts: seq<Todo>, id: TodoId, nextId: nat)
    requires IdsDistinct(ts) && AllIssuedBefore(ts, nextId)
    ensures IdsDistinct(Without(ts, id)) && AllIssuedBefore(Without(ts, id), nextId)
    ensures !HasId(Without(ts, id), id)
  {
    var r := Without(ts, id);
    WithoutMembers(ts, id);
    forall k | 0 <= k < |r| ensures IssuedBefore(r[k].id, nextId) && r[k].id != id {
      assert r[k] in r;
      var m :| 0 <= m < |ts| && ts[m] == r[k];
    }
    if ts != [] {
      var rest := Without(ts[1..], id);
      DeleteKeepsIds(ts[1..], id, nextId);
      if ts[0].id != id {
        assert r == [ts[0]] + rest;
        WithoutMembers(ts[1..], id);
        forall j | 0 <= j < |rest| ensures rest[j].id != ts[0].id {
          assert rest[j] in rest;
          var m :| 0 <= m < |ts[1..]| && ts[1..][m] == rest[j];
          assert ts[m + 1] == rest[j];
        }
        forall i, j | 0 <= i < j < |r| ensures r[i].id != r[j].id {
          if i > 0 {
            assert r[i] == rest[i - 1] && r[j] == rest[j - 1];
          } else {
            assert r[j] == rest[j - 1];
          }
        }
      } else {
        assert r == rest;
      }
    }
  }

  // ---------------------------------------------------------------------------------------
  // The store

  /**
   The provider's state: `todos` and the counter `nextId`. The invariant is that ids are
   pairwise distinct and every id the counter made is below its current value.
   */
  class Store {
    var todos: seq<Todo>
    var nextId: nat

    ghost predicate Valid()
      reads this
    {
      IdsDistinct(todos) && AllIssuedBefore(todos, nextId)
    }

    /** The provider starts with the seed list; the counter starts at 1. */
    constructor (now: int)
      ensures Valid()
      ensures todos == Seed(now) && nextId == 1
    {
      todos := Seed(now);
      nextId := 1;
    }

    /**
     `addTodo`: blank text is ignored; otherwise a new, not completed task holding the trimmed
     text and a never-used id goes to the head, and the counter moves on by one.
     */
    method AddTodo(text: string, idNow: nat, createdNow: int)
      requires Valid()
      modifies this
      ensures Valid()
      ensures Trim(text) == [] ==> todos == old(todos) && nextId == old(nextId)
      ensures Trim(text) != [] ==>
        && todos == [NewTodo(old(nextId), Trim(text), idNow, createdNow)] + old(todos)
        && nextId == old(nextId) + 1
        && !HasId(old(todos), todos[0].id)
    {
      var trimmed := Trim(text);
      if trimmed == [] {
        return;
      }
      AddKeepsIdsDistinct(todos, nextId, trimmed, idNow, createdNow);
      todos := [NewTodo(nextId, trimmed, idNow, createdNow)] + todos;
      nextId := nextId + 1;
    }

    /** `toggleTodo`: flips `completed` on the task with that id. */
    method ToggleTodo(id: TodoId)
      requires Valid()
      modifies this
      ensures Valid()
      ensures todos == Toggled(old(todos), id) && nextId == old(nextId)
    {
      ToggleKeepsIds(todos, id, nextId);
      todos := Toggled(todos, id);
    }

    /** `deleteTodo`: drops the task with that id. */
    method DeleteTodo(id: TodoId)
      requires Valid()
      modifies this
      ensures Valid()
      ensures todos == Without(old(todos), id) && nextId == old(nextId)
      ensures !HasId(todos, id)
    {
      DeleteKeepsIds(todos, id, nextId);
      todos := Without(todos, id);
    }
  }
}
