/** The two mutable buffers the serialisers fill in place: a
    `StringBuilder` that text is appended to (and, once, a header inserted
    in front of), and a `List<int>` that numbers are added to. */
module Buffers {
  import opened Common

  /** `System.Text.StringBuilder`: `text` is what `ToString()` returns. */
  class StringBuilder {
    var text: string

    constructor ()
      ensures text == ""
    {
      text := "";
    }

    /** `Append(s)`. */
    method Append(s: string)
      modifies this
      ensures text == old(text) + s
    {
      text := text + s;
    }

    /** `AppendLine(s)`: the text and then the platform newline. */
    method AppendLine(s: string)
      modifies this
      ensures text == old(text) + Line(s)
    {
      text := text + Line(s);
    }

    /** `AppendLine()`: the platform newline alone. */
    method AppendNewLine()
      modifies this
      ensures text == old(text) + NewLine
    {
      text := text + NewLine;
    }

    /** `Insert(0, s)`. */
    method Prepend(s: string)
      modifies this
      ensures text == s + old(text)
    {
      text := s + text;
    }
  }

  /** `List<int>`. */
  class IntList {
    var items: seq<int>

    constructor ()
      ensures items == []
    {
      items := [];
    }

    /** `AddRange(xs)`. */
    method AddRange(xs: seq<int>)
      modifies this
      ensures items == old(items) + xs
    {
      items := items + xs;
    }
  }
}
