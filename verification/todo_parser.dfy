/** `@todo` annotations: the todo list of an ACS or DECORATE file is
    replaced by one item per `// @todo` match, holding the raw capture and
    the 1-based line on which the capture starts. Both copies of the parser
    share this logic. */
module TodoParser {
  import opened Common
  import opened FileContext
  import opened AcsContext
  import opened DecorateContext

  /** One match of the `// @todo` pattern (optional colon, surrounding
      blanks allowed): its `todo` group, the rest of the line. */
  datatype TodoMatch = TodoMatch(todo: Group)

  /** Line feeds among the first `k` characters. */
  function LineFeedsBefore(s: string, k: nat): (n: nat)
    requires k <= |s|
    ensures n <= k
  {
    if k == 0 then 0 else LineFeedsBefore(s, k - 1) + (if s[k - 1] == '\n' then 1 else 0)
  }

  /** The 1-based line holding position `k`: one more than the line feeds
      before it. Only `\n` counts, so `\r`-only line breaks are not seen. */
  function LineAt(s: string, k: nat): (line: int)
    requires k <= |s|
    ensures 1 <= line <= k + 1
  {
    1 + LineFeedsBefore(s, k)
  }

  /** `LineFromPos`: counts the line feeds before the index one character at
      a time; an index past the end of the text reads outside it and throws. */
  method LineFromPos(input: string, indexPosition: nat) returns (r: Result<int>)
    ensures indexPosition <= |input| ==> r == Ok(LineAt(input, indexPosition))
    ensures indexPosition > |input| ==> r == Err(IndexOutOfRange(|input|))
  {
    var lineNumber := 1;
    var i := 0;
    while i < indexPosition
      invariant 0 <= i <= indexPosition && i <= |input|
      invariant lineNumber == LineAt(input, i)
    {
      if i == |input| {
        return Err(IndexOutOfRange(i));
      }
      if input[i] == '\n' {
        lineNumber := lineNumber + 1;
      }
      i := i + 1;
    }
    return Ok(lineNumber);
  }

  /** Each character adds one line exactly when it is a line feed. */
  lemma LineAtStep(s: string, i: nat)
    requires i < |s|
    ensures LineAt(s, i + 1) == LineAt(s, i) + (if s[i] == '\n' then 1 else 0)
  {
  }

  /** Lines never go down as the position moves right. */
  lemma {:induction false} LineAtMonotone(s: string, j: nat, k: nat)
    requires j <= k <= |s|
    ensures LineAt(s, j) <= LineAt(s, k)
    decreases k - j
  {
    if j < k {
      LineAtMonotone(s, j, k - 1);
    }
  }

  /** Text without a line feed is all on line 1, whatever other breaks it has. */
  lemma {:induction false} NoLineFeedLineOne(s: string, k: nat)
    requires k <= |s| && '\n' !in s
    ensures LineAt(s, k) == 1
  {
    if k > 0 {
      assert s[k - 1] != '\n';
      NoLineFeedLineOne(s, k - 1);
    }
  }

  /** The item of one match: the raw, untrimmed capture and the line of the
      capture's own start (not the match's). */
  function TodoItemOf(content: string, m: TodoMatch): (r: Result<TodoItem>)
    ensures r.Ok? <==> m.todo.Index() <= |content|
    ensures r.Ok? ==> r.value.value == m.todo.Value() && r.value.line == LineAt(content, m.todo.Index())
    ensures r.Err? ==> r.error == IndexOutOfRange(|content|)
  {
    if m.todo.Index() > |content| then Err(IndexOutOfRange(|content|))
    else Ok(TodoItem(m.todo.Value(), LineAt(content, m.todo.Index())))
  }

  /** `ParseTodoContent`: one item per match, in match order. */
  function TodoItems(content: string, matches: seq<TodoMatch>): (r: Result<seq<TodoItem>>)
    ensures r.Ok? <==> forall i :: 0 <= i < |matches| ==> matches[i].todo.Index() <= |content|
    ensures r.Ok? ==>
      && |r.value| == |matches|
      && forall i :: 0 <= i < |matches| ==> TodoItemOf(content, matches[i]) == Ok(r.value[i])
  {
    if matches == [] then Ok([])
    else match TodoItemOf(content, matches[0])
      case Err(e) => Err(e)
      case Ok(item) =>
        match TodoItems(content, matches[1..])
        case Err(e) => Err(e)
        case Ok(items) => Ok([item] + items)
  }

  /** Items of matches found left to right have non-decreasing lines, all at least 1. */
  lemma TodoLinesNondecreasing(content: string, matches: seq<TodoMatch>, i: nat, j: nat)
    requires TodoItems(content, matches).Ok?
    requires i <= j < |matches| && matches[i].todo.Index() <= matches[j].todo.Index()
    ensures 1 <= TodoItems(content, matches).value[i].line <= TodoItems(content, matches).value[j].line
  {
    LineAtMonotone(content, matches[i].todo.Index(), matches[j].todo.Index());
  }

  /** `ParseAsync(AcsFile)`: the todo list is replaced, and nothing else changes;
      the file is untouched when an item throws. */
  function AcsTodosParsed(file: AcsFile, matches: seq<TodoMatch>): (s: Step<AcsFile>)
    ensures s.err.None? <==> TodoItems(file.content, matches).Ok?
    ensures s.err.None? ==> s.doc == file.(todos := Some(TodoItems(file.content, matches).value))
    ensures s.err.Some? ==> s.doc == file
  {
    match TodoItems(file.content, matches)
    case Ok(items) => Step(file.(todos := Some(items)), None)
    case Err(e) => Step(file, Some(e))
  }

  /** `ParseAsync(DecorateFile)`: the same for a DECORATE file. */
  function DecorateTodosParsed(file: DecorateFile, matches: seq<TodoMatch>): (s: Step<DecorateFile>)
    ensures s.err.None? <==> TodoItems(file.content, matches).Ok?
    ensures s.err.None? ==> s.doc == file.(todos := Some(TodoItems(file.content, matches).value))
    ensures s.err.Some? ==> s.doc == file
  {
    match TodoItems(file.content, matches)
    case Ok(items) => Step(file.(todos := Some(items)), None)
    case Err(e) => Step(file, Some(e))
  }

  /** The two overloads give the same list for the same content. */
  lemma OverloadsAgree(acs: AcsFile, decorate: DecorateFile, matches: seq<TodoMatch>)
    requires acs.content == decorate.content
    ensures AcsTodosParsed(acs, matches).err == DecorateTodosParsed(decorate, matches).err
    ensures AcsTodosParsed(acs, matches).err.None? ==>
      AcsTodosParsed(acs, matches).doc.todos == DecorateTodosParsed(decorate, matches).doc.todos
  {
  }
}
