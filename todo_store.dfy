/**
 * The Todo API's in-memory store: a dictionary from id to Todo and a counter
 * for the next id. Creating a todo stores it under the counter and steps the
 * counter; reads, updates and deletes of an id that is not stored answer
 * with a 404 "Todo not found" error and change nothing.
 *
 * A Python dictionary remembers the order in which its keys were first
 * inserted, and listing the todos follows that order; the store keeps that
 * order as the sequence `order` next to the map.
 */
module TodoBackend {
  import opened Wrappers

  /** The fields a client sends to create or update a todo; the description defaults to None. */
  datatype TodoBase = TodoBase(title: string, description: Option<string>)

  /** A stored todo: the client's fields and the id the store gave it. */
  datatype Todo = Todo(id: int, title: string, description: Option<string>)

  /** What an endpoint answers: a value, or an HTTP error with its status and detail. */
  datatype Response<T> = Ok(value: T) | HttpError(status: int, detail: string)

  const NotFoundStatus: int := 404
  const NotFoundDetail := "Todo not found"
  const DeletedDetail := "Todo deleted"

  /** A create or update body with only a title: the description is left as None. */
  function TitleOnly(title: string): (b: TodoBase)
    ensures b.title == title && b.description == None
  {
    TodoBase(title, None)
  }

  /** The stored form of the fields `b` under `id`. */
  function WithId(id: int, b: TodoBase): (t: Todo)
    ensures t.id == id && t.title == b.title && t.description == b.description
  {
    Todo(id, b.title, b.description)
  }

  predicate Increasing(s: seq<int>) {
    forall i, j :: 0 <= i < j < |s| ==> s[i] < s[j]
  }

  function Elements(s: seq<int>): set<int> {
    set x | x in s
  }

  /** A sequence without repetitions has as many elements as entries. */
  lemma {:induction false} IncreasingCard(s: seq<int>)
    requires Increasing(s)
    ensures |Elements(s)| == |s|
    decreases |s|
  {
    if |s| > 0 {
      var rest := s[1..];
      assert Increasing(rest);
      IncreasingCard(rest);
      assert Elements(s) == {s[0]} + Elements(rest);
      assert s[0] !in Elements(rest);
    }
  }

  /** `s` with the entry `k` taken out, the others in their order (`del` on the key order). */
  function Without(s: seq<int>, k: int): (r: seq<int>)
    ensures forall x :: x in r <==> x in s && x != k
    ensures Increasing(s) ==> Increasing(r)
    decreases |s|
  {
    if |s| == 0 then []
    else
      var rest := Without(s[1..], k);
      if s[0] == k then rest
      else
        if Increasing(s) then
          assert Increasing(s[1..]);
          ConsIncreasing(s[0], rest);
          [s[0]] + rest
        else [s[0]] + rest
  }

  lemma {:induction false} ConsIncreasing(x: int, r: seq<int>)
    requires Increasing(r) && forall y :: y in r ==> x < y
    ensures Increasing([x] + r)
  {
    forall i, j | 0 <= i < j < |r| + 1 ensures ([x] + r)[i] < ([x] + r)[j] {
      assert ([x] + r)[j] == r[j - 1] && r[j - 1] in r;
      if i > 0 { assert ([x] + r)[i] == r[i - 1]; }
    }
  }

  /** The values of `m` at the keys `ks`, in the order of `ks`. */
  function ValuesAt(m: map<int, Todo>, ks: seq<int>): (r: seq<Todo>)
    requires forall i :: 0 <= i < |ks| ==> ks[i] in m
    ensures |r| == |ks|
    ensures forall i :: 0 <= i < |ks| ==> r[i] == m[ks[i]]
    decreases |ks|
  {
    if |ks| == 0 then [] else [m[ks[0]]] + ValuesAt(m, ks[1..])
  }

  /** When `order` lists exactly the keys of `m`, its elements are the key set. */
  lemma {:induction false} KeysInOrder(m: map<int, Todo>, order: seq<int>)
    requires forall i :: 0 <= i < |order| ==> order[i] in m
    requires forall k :: k in m ==> k in order
    ensures m.Keys == Elements(order)
  {
    forall k ensures k in m.Keys <==> k in Elements(order) {
      if k in Elements(order) {
        var i :| 0 <= i < |order| && order[i] == k;
      }
    }
  }

  /** Listing `m` along a repetition-free order of exactly its keys, with each todo under its id. */
  lemma {:induction false} ListingFacts(m: map<int, Todo>, order: seq<int>)
    requires Increasing(order)
    requires forall i :: 0 <= i < |order| ==> order[i] in m
    requires forall k :: k in m ==> k in order && m[k].id == k
    ensures |ValuesAt(m, order)| == |m|
    ensures forall k :: k in m ==> m[k] in ValuesAt(m, order)
    ensures forall i :: 0 <= i < |ValuesAt(m, order)| ==>
      ValuesAt(m, order)[i].id in m && m[ValuesAt(m, order)[i].id] == ValuesAt(m, order)[i]
    ensures forall i, j :: 0 <= i < j < |ValuesAt(m, order)| ==> ValuesAt(m, order)[i].id < ValuesAt(m, order)[j].id
  {
    var r := ValuesAt(m, order);
    assert |r| == |m| by {
      KeysInOrder(m, order);
      IncreasingCard(order);
    }
    forall k | k in m ensures m[k] in r {
      var i :| 0 <= i < |order| && order[i] == k;
      assert r[i] == m[k];
    }
    forall i | 0 <= i < |r| ensures r[i].id in m && m[r[i].id] == r[i] {
      assert r[i] == m[order[i]];
    }
    forall i, j | 0 <= i < j < |r| ensures r[i].id < r[j].id {
      assert r[i] == m[order[i]] && r[j] == m[order[j]];
    }
  }

  class TodoStore {
    var todos: map<int, Todo>
    /** The keys of `todos` in the order they were first inserted. */
    var order: seq<int>
    var nextId: int

    /**
     * The counter starts at 1 and only grows; every stored id lies below it
     * and is the id of its todo; `order` lists each stored id once.
     */
    predicate Valid()
      reads this
    {
      && nextId >= 1
      && (forall k :: k in todos ==> 1 <= k < nextId && todos[k].id == k)
      && Increasing(order)
      && (forall i :: 0 <= i < |order| ==> order[i] in todos)
      && (forall k :: k in todos ==> k in order)
    }

    /** The empty store of a freshly started server. */
    constructor ()
      ensures Valid() && todos == map[] && order == [] && nextId == 1
    {
      todos, order, nextId := map[], [], 1;
    }

    /** `create_todo`: store the fields under the counter, then step the counter. */
    method CreateTodo(todo: TodoBase) returns (item: Todo)
      requires Valid()
      modifies this
      ensures Valid()
      ensures item == WithId(old(nextId), todo)
      ensures old(nextId) !in old(todos)
      ensures todos == old(todos)[item.id := item]
      ensures order == old(order) + [item.id]
      ensures nextId == old(nextId) + 1
      ensures ReadTodo(item.id) == Ok(item)
    {
      item := WithId(nextId, todo);
      todos := todos[nextId := item];
      order := order + [nextId];
      nextId := nextId + 1;
    }

    /** `read_todos`: every stored todo exactly once, in insertion order, which is id order. */
    function ReadTodos(): (r: seq<Todo>)
      requires Valid()
      reads this
      ensures |r| == |todos|
      ensures forall k :: k in todos ==> todos[k] in r
      ensures forall i :: 0 <= i < |r| ==> r[i].id in todos && todos[r[i].id] == r[i]
      ensures forall i, j :: 0 <= i < j < |r| ==> r[i].id < r[j].id
    {
      ListingFacts(todos, order);
      ValuesAt(todos, order)
    }

    /** `read_todo`: the stored todo, or 404 when the id is not stored. */
    function ReadTodo(todoId: int): (r: Response<Todo>)
      reads this
      ensures r.Ok? <==> todoId in todos
      ensures r.Ok? ==> r.value == todos[todoId]
      ensures r.HttpError? ==> r.status == NotFoundStatus && r.detail == NotFoundDetail
      ensures Valid() && r.Ok? ==> r.value.id == todoId
    {
      if todoId !in todos then HttpError(NotFoundStatus, NotFoundDetail) else Ok(todos[todoId])
    }

    /** `update_todo`: replace the stored todo's fields, keeping its id and its place. */
    method UpdateTodo(todoId: int, todo: TodoBase) returns (r: Response<Todo>)
      requires Valid()
      modifies this
      ensures Valid()
      ensures order == old(order) && nextId == old(nextId)
      ensures todoId !in old(todos) ==>
        r == HttpError(NotFoundStatus, NotFoundDetail) && todos == old(todos)
      ensures todoId in old(todos) ==>
        r == Ok(WithId(todoId, todo)) && todos == old(todos)[todoId := WithId(todoId, todo)]
    {
      if todoId !in todos {
        return HttpError(NotFoundStatus, NotFoundDetail);
      }
      var updated := WithId(todoId, todo);
      todos := todos[todoId := updated];
      r := Ok(updated);
    }

    /** `delete_todo`: remove exactly that id; the counter is not stepped back. */
    method DeleteTodo(todoId: int) returns (r: Response<string>)
      requires Valid()
      modifies this
      ensures Valid()
      ensures nextId == old(nextId)
      ensures todoId !in old(todos) ==>
        r == HttpError(NotFoundStatus, NotFoundDetail) && todos == old(todos) && order == old(order)
      ensures todoId in old(todos) ==>
        r == Ok(DeletedDetail) && todos == old(todos) - {todoId} && order == Without(old(order), todoId)
      ensures ReadTodo(todoId) == HttpError(NotFoundStatus, NotFoundDetail)
    {
      if todoId !in todos {
        return HttpError(NotFoundStatus, NotFoundDetail);
      }
      todos := todos - {todoId};
      order := Without(order, todoId);
      assert forall i :: 0 <= i < |order| ==> order[i] in order;
      r := Ok(DeletedDetail);
    }
  }

  /**
   * A todo created with only a title reads back with that title, no
   * description and the id it was given; the ids of two creates differ.
   */
  method CreateThenRead(store: TodoStore, title: string, other: TodoBase)
      returns (first: Todo, second: Todo)
    requires store.Valid()
    modifies store
    ensures store.Valid()
    ensures store.ReadTodo(first.id) == Ok(Todo(first.id, title, None))
    ensures store.ReadTodo(second.id) == Ok(WithId(second.id, other))
    ensures first.id != second.id
  {
    first := store.CreateTodo(TitleOnly(title));
    second := store.CreateTodo(other);
    assert store.todos[first.id] == first;
  }
}
