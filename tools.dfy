/**
 * The five tools the agent may call against the Todo API. Each tool sends
 * one HTTP request; what the model keeps is how a tool turns the response's
 * status code into its result: a value handed back to the agent, or a raised
 * exception whose message carries the status code.
 */
module TodoTools {
  import opened Wrappers
  import opened Text

  /** What a tool hands back: a returned value, or a raised `Exception(message)`. */
  datatype ToolResult<T> = Returned(value: T) | Raised(message: string)

  const StatusOk: int := 200
  const StatusNotFound: int := 404

  const RetrieveTodosFailure := "Failed to retrieve todos: "
  const RetrieveTodoFailure := "Failed to retrieve todo: "
  const DeleteFailure := "Failed to delete todo: "
  const AddFailure := "Failed to add todo: "
  const UpdateFailure := "Failed to update todo: "

  /**
   * The shared shape of the tools: `success` exactly when the status is 200,
   * otherwise an exception `failure` followed by the code, from which the
   * code can be read back.
   */
  function OnStatus<T>(status: int, success: T, failure: string): (r: ToolResult<T>)
    ensures r.Returned? <==> status == StatusOk
    ensures r.Returned? ==> r.value == success
    ensures r.Raised? ==> failure <= r.message && CodeAfter(r.message, failure) == Some(status)
  {
    if status == StatusOk then Returned(success)
    else
      CodeAfterPrefix(failure, status);
      Raised(failure + IntToString(status))
  }

  /** `get_todos`: the decoded body of a 200 response, or a failure naming the code. */
  function GetTodos<J>(status: int, body: J): (r: ToolResult<J>)
    ensures r == Returned(body) <==> status == StatusOk
    ensures r.Raised? <==> status != StatusOk
    ensures r.Raised? ==> CodeAfter(r.message, RetrieveTodosFailure) == Some(status)
  {
    OnStatus(status, body, RetrieveTodosFailure)
  }

  /** `get_todo_by_id`: the decoded body of a 200 response, or a failure naming the code. */
  function GetTodoById<J>(status: int, body: J): (r: ToolResult<J>)
    ensures r == Returned(body) <==> status == StatusOk
    ensures r.Raised? <==> status != StatusOk
    ensures r.Raised? ==> CodeAfter(r.message, RetrieveTodoFailure) == Some(status)
  {
    OnStatus(status, body, RetrieveTodoFailure)
  }

  /** `delete_todo_by_id`: a 404 is reported back to the agent, not raised. */
  function DeleteTodoById(status: int): (r: ToolResult<string>)
    ensures r == Returned("Todo deleted successfully") <==> status == StatusOk
    ensures r == Returned("Todo not found") <==> status == StatusNotFound
    ensures r.Raised? <==> status != StatusOk && status != StatusNotFound
    ensures r.Raised? ==> CodeAfter(r.message, DeleteFailure) == Some(status)
  {
    if status == StatusNotFound then Returned("Todo not found")
    else OnStatus(status, "Todo deleted successfully", DeleteFailure)
  }

  /** `add_new_todo`: a confirmation for a 200 response, or a failure naming the code. */
  function AddNewTodo(status: int): (r: ToolResult<string>)
    ensures r == Returned("Todo added successfully") <==> status == StatusOk
    ensures r.Raised? <==> status != StatusOk
    ensures r.Raised? ==> CodeAfter(r.message, AddFailure) == Some(status)
  {
    OnStatus(status, "Todo added successfully", AddFailure)
  }

  /** `update_a_todo_by_id`: a confirmation for a 200 response, or a failure naming the code. */
  function UpdateATodoById(status: int): (r: ToolResult<string>)
    ensures r == Returned("Todo updated successfully") <==> status == StatusOk
    ensures r.Raised? <==> status != StatusOk
    ensures r.Raised? ==> CodeAfter(r.message, UpdateFailure) == Some(status)
  {
    OnStatus(status, "Todo updated successfully", UpdateFailure)
  }

  /** Two failures of the same tool carry the same message only for the same status code. */
  lemma {:induction false} FailureIdentifiesStatus<T>(a: int, b: int, success: T, failure: string)
    requires OnStatus(a, success, failure).Raised? && OnStatus(b, success, failure).Raised?
    requires OnStatus(a, success, failure).message == OnStatus(b, success, failure).message
    ensures a == b
  {
    CodeAfterPrefix(failure, a);
    CodeAfterPrefix(failure, b);
  }

  /**
   * The agent can tell the two reads apart by their failure messages: no
   * failure of `get_todos` reads like a failure of `get_todo_by_id`.
   */
  lemma {:induction false} ReadFailuresAreDistinct<J>(a: int, b: int, x: J, y: J)
    requires GetTodos(a, x).Raised? && GetTodoById(b, y).Raised?
    ensures GetTodos(a, x).message != GetTodoById(b, y).message
  {
    var m, n := GetTodos(a, x).message, GetTodoById(b, y).message;
    assert m[23] == RetrieveTodosFailure[23];
    assert n[23] == RetrieveTodoFailure[23];
    assert RetrieveTodosFailure[23] == 's' && RetrieveTodoFailure[23] == ':';
  }
}
