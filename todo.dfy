/** The TODO list application: the list lives in the text file `todos.txt`, one item per line.
    Every request loads the list from the file, and the requests that change it write it back. */
module Todo {
  import opened Wrappers
  import opened PyStr

  /** The newline translation of a file read in text mode (universal newlines): "\r\n" and a
      lone "\r" both become "\n". */
  function TranslateNewlines(s: string): (r: string)
    ensures '\r' !in r
    decreases |s|
  {
    if s == [] then []
    else if s[0] == '\r' then "\n" + TranslateNewlines(if |s| > 1 && s[1] == '\n' then s[2..] else s[1..])
    else [s[0]] + TranslateNewlines(s[1..])
  }

  /** A text without "\r" is read as it is. */
  lemma {:induction false} TranslatePlainText(s: string)
    requires '\r' !in s
    ensures TranslateNewlines(s) == s
    decreases |s|
  {
    if s != [] {
      assert s[0] != '\r';
      assert '\r' !in s[1..] by {
        forall k | 0 <= k < |s| - 1
          ensures s[1..][k] != '\r'
        {
          assert s[1..][k] == s[k + 1];
        }
      }
      TranslatePlainText(s[1..]);
    }
  }

  /** How many characters at the front of `s` are read as one. */
  function Skip(s: string): nat
    requires s != []
  {
    if s[0] == '\r' && |s| > 1 && s[1] == '\n' then 2 else 1
  }

  /** What the characters at the front of `s` are read as. */
  function Head(s: string): string
    requires s != []
  {
    if s[0] == '\r' then "\n" else [s[0]]
  }

  lemma TranslateFront(s: string)
    requires s != []
    ensures Skip(s) <= |s|
    ensures TranslateNewlines(s) == Head(s) + TranslateNewlines(s[Skip(s)..])
  {
  }

  lemma TranslateFrontConcat(a: string, b: string)
    requires a != [] && Skip(a) < |a|
    ensures Skip(a + b) == Skip(a) && Head(a + b) == Head(a) && (a + b)[Skip(a)..] == a[Skip(a)..] + b
  {
    assert (a + b)[0] == a[0] && (a + b)[1] == a[1];
  }

  lemma TranslateLastConcat(a: string, b: string)
    requires a != [] && Skip(a) == |a|
    requires b == [] || a[|a| - 1] != '\r' || b[0] != '\n'
    ensures Skip(a + b) == Skip(a) && Head(a + b) == Head(a) && (a + b)[Skip(a)..] == b
  {
    assert (a + b)[0] == a[0];
    if |a| == 2 {
      assert (a + b)[1] == a[1];
    }
  }

  /** Reading `a + b` translates `a` and `b` separately, unless a "\r" ending `a` and a "\n"
      starting `b` form one "\r\n". */
  lemma {:induction false} TranslateConcat(a: string, b: string)
    requires a == [] || b == [] || a[|a| - 1] != '\r' || b[0] != '\n'
    ensures TranslateNewlines(a + b) == TranslateNewlines(a) + TranslateNewlines(b)
    decreases |a|
  {
    if a == [] {
      assert a + b == b;
    } else {
      TranslateFront(a);
      TranslateFront(a + b);
      var rest := a[Skip(a)..];
      if rest == [] {
        TranslateLastConcat(a, b);
      } else {
        TranslateFrontConcat(a, b);
        assert rest[|rest| - 1] == a[|a| - 1];
        TranslateConcat(rest, b);
      }
    }
  }

  /** A "\r\n" is read as one "\n". */
  lemma TranslateCrLf(a: string, b: string)
    ensures TranslateNewlines(a + "\r\n" + b) == TranslateNewlines(a) + "\n" + TranslateNewlines(b)
  {
    assert a + "\r\n" + b == a + (['\r'] + ("\n" + b));
    var crlf := ['\r'] + ("\n" + b);
    TranslateConcat(a, crlf);
    TranslateFront(crlf);
    assert crlf[1] == '\n' && crlf[2..] == b;
  }

  /** A "\r" not followed by "\n" is read as "\n". */
  lemma TranslateLoneCr(a: string, b: string)
    requires b == [] || b[0] != '\n'
    ensures TranslateNewlines(a + "\r" + b) == TranslateNewlines(a) + "\n" + TranslateNewlines(b)
  {
    assert a + "\r" + b == a + (['\r'] + b);
    TranslateConcat(a, ['\r'] + b);
    TranslateFront(['\r'] + b);
    assert (['\r'] + b)[1..] == b;
  }

  /** Every other character is read as it is, a "\n" included unless a "\r" precedes it. */
  lemma TranslateOtherChar(a: string, c: char, b: string)
    requires c != '\r' && (c != '\n' || a == [] || a[|a| - 1] != '\r')
    ensures TranslateNewlines(a + [c] + b) == TranslateNewlines(a) + [c] + TranslateNewlines(b)
  {
    assert a + [c] + b == a + ([c] + b);
    TranslateConcat(a, [c] + b);
    TranslateFront([c] + b);
    assert ([c] + b)[1..] == b;
  }

  function Concat(ls: seq<string>): string
  {
    if ls == [] then [] else ls[0] + Concat(ls[1..])
  }

  /** The lines met when iterating over a file whose text is `t`: a line runs up to and
      including the next "\n", and the text after the last "\n", if any, is a line too. */
  function Lines(t: string): seq<string>
    decreases |t|
  {
    if t == [] then []
    else
      var rest := Lines(t[1..]);
      if t[0] == '\n' || rest == [] then [[t[0]]] + rest
      else [[t[0]] + rest[0]] + rest[1..]
  }

  /** The lines spell the text they come from. */
  lemma {:induction false} LinesSpellText(t: string)
    ensures Concat(Lines(t)) == t
    decreases |t|
  {
    if t != [] {
      var rest := Lines(t[1..]);
      LinesSpellText(t[1..]);
      if t[0] == '\n' || rest == [] {
        assert ([[t[0]]] + rest)[1..] == rest;
      } else {
        assert ([[t[0]] + rest[0]] + rest[1..])[1..] == rest[1..];
        assert Concat(rest) == rest[0] + Concat(rest[1..]);
      }
    }
  }

  /** Each line is non-empty, every line but the last ends with "\n", no line holds a "\n"
      before its end, and a text without "\r" gives lines without "\r". */
  lemma {:induction false} LinesShape(t: string)
    ensures forall k :: 0 <= k < |Lines(t)| ==> Lines(t)[k] != [] && '\n' !in Lines(t)[k][..|Lines(t)[k]| - 1]
    ensures forall k :: 0 <= k < |Lines(t)| - 1 ==> Lines(t)[k][|Lines(t)[k]| - 1] == '\n'
    ensures '\r' !in t ==> forall k :: 0 <= k < |Lines(t)| ==> '\r' !in Lines(t)[k]
    decreases |t|
  {
    if t != [] {
      var rest := Lines(t[1..]);
      LinesShape(t[1..]);
      if t[0] == '\n' || rest == [] {
        assert Lines(t) == [[t[0]]] + rest;
      } else {
        var line := [t[0]] + rest[0];
        assert Lines(t) == [line] + rest[1..];
        assert line[..|line| - 1] == [t[0]] + rest[0][..|rest[0]| - 1];
      }
    }
  }

  /** `[line.strip() for line in ls]`. */
  function StripAll(ls: seq<string>): seq<string>
  {
    seq(|ls|, k requires 0 <= k < |ls| => Strip(ls[k]))
  }

  /** An item that `save_todos` can write on one line: it holds no line break of either kind. */
  predicate OneLine(s: string)
  {
    '\n' !in s && '\r' !in s
  }

  /** `load_todos`: the stripped lines of `todos.txt`, or the empty list while the file does
      not exist. */
  function LoadTodos(file: Option<string>): (todos: seq<string>)
    ensures file.None? ==> todos == []
    ensures file.Some? ==> |todos| == |Lines(TranslateNewlines(file.value))|
  {
    match file
    case None => []
    case Some(text) => StripAll(Lines(TranslateNewlines(text)))
  }

  /** `save_todos`: the text written to `todos.txt`, the items joined by "\n" with no newline
      after the last one. */
  function SaveTodos(todos: seq<string>): (text: string)
    ensures (forall k :: 0 <= k < |todos| ==> OneLine(todos[k])) ==>
              '\r' !in text && |Lines(text)| == |DropTrailingBlank(todos)|
  {
    if forall k :: 0 <= k < |todos| ==> OneLine(todos[k]) then
      JoinKeepsNoCarriageReturn(todos);
      StripAllLinesOfJoin(todos);
      Join(todos, "\n")
    else
      Join(todos, "\n")
  }

  /** Every loaded item is on one line and has no whitespace at either end. */
  lemma LoadedItemsAreClean(file: Option<string>)
    ensures forall k :: 0 <= k < |LoadTodos(file)| ==> OneLine(LoadTodos(file)[k]) && Trimmed(LoadTodos(file)[k])
  {
    if file.Some? {
      var ls := Lines(TranslateNewlines(file.value));
      LinesShape(TranslateNewlines(file.value));
      forall k | 0 <= k < |ls|
        ensures OneLine(Strip(ls[k]))
      {
        StripLineHasNoNewline(ls[k]);
      }
    }
  }

  /** The list without its last item when that item is empty. */
  function DropTrailingBlank(xs: seq<string>): seq<string>
  {
    if xs != [] && xs[|xs| - 1] == "" then xs[..|xs| - 1] else xs
  }

  lemma {:induction false} JoinKeepsNoCarriageReturn(xs: seq<string>)
    requires forall k :: 0 <= k < |xs| ==> OneLine(xs[k])
    ensures '\r' !in Join(xs, "\n")
    decreases |xs|
  {
    if |xs| > 1 {
      JoinKeepsNoCarriageReturn(xs[1..]);
    }
  }

  lemma {:induction false} LinesOfLine(x: string)
    requires x != [] && '\n' !in x
    ensures Lines(x) == [x]
    decreases |x|
  {
    if |x| == 1 {
      assert x == [x[0]];
      assert Lines(x[1..]) == [];
    } else {
      LinesOfLine(x[1..]);
      assert [x[0]] + x[1..] == x;
    }
  }

  lemma {:induction false} LinesAfterLine(x: string, t: string)
    requires '\n' !in x
    ensures Lines(x + "\n" + t) == [x + "\n"] + Lines(t)
    decreases |x|
  {
    if x == [] {
      assert x + "\n" + t == "\n" + t;
      assert ("\n" + t)[1..] == t;
    } else {
      assert (x + "\n" + t)[1..] == x[1..] + "\n" + t;
      LinesAfterLine(x[1..], t);
      assert [x[0]] + (x[1..] + "\n") == x + "\n";
    }
  }

  lemma StripAllCons(x: string, ls: seq<string>)
    ensures StripAll([x] + ls) == [Strip(x)] + StripAll(ls)
  {
    assert ([x] + ls)[1..] == ls;
  }

  lemma DropTrailingBlankCons(x: string, xs: seq<string>)
    requires xs != []
    ensures DropTrailingBlank([x] + xs) == [x] + DropTrailingBlank(xs)
  {
    if xs[|xs| - 1] == "" {
      assert ([x] + xs)[..|xs|] == [x] + xs[..|xs| - 1];
    }
  }

  lemma {:induction false} StripAllLinesOfJoin(xs: seq<string>)
    requires forall k :: 0 <= k < |xs| ==> OneLine(xs[k])
    ensures StripAll(Lines(Join(xs, "\n"))) == StripAll(DropTrailingBlank(xs))
    decreases |xs|
  {
    if |xs| == 1 {
      if xs[0] != "" {
        LinesOfLine(xs[0]);
      }
    } else if |xs| > 1 {
      var x, r := xs[0], xs[1..];
      assert xs == [x] + r;
      var rest := Join(r, "\n");
      assert Join(xs, "\n") == x + "\n" + rest;
      LinesAfterLine(x, rest);
      StripAllCons(x + "\n", Lines(rest));
      StripNewline(x);
      StripAllLinesOfJoin(r);
      DropTrailingBlankCons(x, r);
      StripAllCons(x, DropTrailingBlank(r));
    }
  }

  /** What `load_todos` reads back after `save_todos(xs)`, for items without line breaks: the
      items stripped, except that an empty last item is lost (the text then ends in "\n"). */
  lemma LoadAfterSave(xs: seq<string>)
    requires forall k :: 0 <= k < |xs| ==> OneLine(xs[k])
    ensures LoadTodos(Some(SaveTodos(xs))) == StripAll(DropTrailingBlank(xs))
  {
    JoinKeepsNoCarriageReturn(xs);
    TranslatePlainText(Join(xs, "\n"));
    StripAllLinesOfJoin(xs);
  }

  /** Stripping items that have no whitespace at either end changes nothing. */
  lemma StripAllTrimmed(xs: seq<string>)
    requires forall k :: 0 <= k < |xs| ==> Trimmed(xs[k])
    ensures StripAll(xs) == xs
  {
  }

  /** For items on one line and without whitespace at either end, `load_todos` reads back
      exactly what `save_todos` wrote, except for an empty last item. */
  lemma LoadAfterSaveClean(xs: seq<string>)
    requires forall k :: 0 <= k < |xs| ==> OneLine(xs[k]) && Trimmed(xs[k])
    ensures LoadTodos(Some(SaveTodos(xs))) == DropTrailingBlank(xs)
  {
    LoadAfterSave(xs);
    var kept := DropTrailingBlank(xs);
    assert forall k :: 0 <= k < |kept| ==> Trimmed(kept[k]);
    StripAllTrimmed(kept);
  }

  /** The round trip `load_todos(save_todos(xs)) == xs` for items on one line, without
      whitespace at either end, of which the last is not empty. */
  lemma LoadSaveRoundTrip(xs: seq<string>)
    requires forall k :: 0 <= k < |xs| ==> OneLine(xs[k]) && Trimmed(xs[k])
    requires xs == [] || xs[|xs| - 1] != ""
    ensures LoadTodos(Some(SaveTodos(xs))) == xs
  {
    LoadAfterSaveClean(xs);
  }

  /** `del todos[i]`: item `i` is gone, the others keep their order. */
  function Remove(xs: seq<string>, i: nat): (r: seq<string>)
    requires i < |xs|
    ensures |r| == |xs| - 1
    ensures forall k :: 0 <= k < i ==> r[k] == xs[k]
    ensures forall k :: i <= k < |r| ==> r[k] == xs[k + 1]
  {
    xs[..i] + xs[i + 1..]
  }

  datatype Request = Get | Post(todo: Option<string>)
  datatype Response = Listing(todos: seq<string>) | RedirectToIndex

  class App {
    /** The text of `todos.txt`, None while the file does not exist. */
    var file: Option<string>

    constructor (file: Option<string>)
      ensures this.file == file
    {
      this.file := file;
    }

    /** `index`: GET lists the items; POST appends a non-empty `todo` field to the loaded list and
        saves it, and leaves the file alone when the field is missing or empty. */
    method Index(request: Request) returns (response: Response)
      modifies this
      ensures request.Get? ==> file == old(file) && response == Listing(LoadTodos(file))
      ensures request.Post? ==> response == RedirectToIndex
      ensures request.Post? && Truthy(request.todo) ==>
                file == Some(SaveTodos(LoadTodos(old(file)) + [request.todo.value]))
      ensures request.Post? && !Truthy(request.todo) ==> file == old(file)
    {
      var todos := LoadTodos(file);
      if request.Post? {
        var newTodo := request.todo;
        if newTodo.Some? && newTodo.value != "" {
          todos := todos + [newTodo.value];
          file := Some(SaveTodos(todos));
        }
        return RedirectToIndex;
      }
      return Listing(todos);
    }

    /** `delete`: an index inside the loaded list removes that item and saves the rest; any other
        index changes nothing. */
    method Delete(todoId: int)
      modifies this
      ensures 0 <= todoId < |LoadTodos(old(file))| ==>
                file == Some(SaveTodos(Remove(LoadTodos(old(file)), todoId)))
      ensures !(0 <= todoId < |LoadTodos(old(file))|) ==> file == old(file)
    {
      var todos := LoadTodos(file);
      if 0 <= todoId < |todos| {
        todos := Remove(todos, todoId);
        file := Some(SaveTodos(todos));
      }
    }
  }

  /** After adding a non-empty item without line breaks, the list loaded from the file is the
      earlier list with the stripped item at its end. */
  lemma AddAppendsItem(file: Option<string>, todo: string)
    requires todo != "" && OneLine(todo)
    ensures LoadTodos(Some(SaveTodos(LoadTodos(file) + [todo]))) == LoadTodos(file) + [Strip(todo)]
  {
    var todos := LoadTodos(file);
    LoadedItemsAreClean(file);
    var added := todos + [todo];
    assert forall k :: 0 <= k < |added| ==> OneLine(added[k]);
    LoadAfterSave(added);
    assert DropTrailingBlank(added) == added;
    StripAllSnoc(todos, todo);
    StripAllTrimmed(todos);
  }

  lemma StripAllSnoc(xs: seq<string>, x: string)
    ensures StripAll(xs + [x]) == StripAll(xs) + [Strip(x)]
  {
  }

  /** After deleting item `i`, the list loaded from the file is the earlier list without item
      `i`, and also without the new last item if that one is empty. */
  lemma DeleteRemovesItem(file: Option<string>, i: nat)
    requires i < |LoadTodos(file)|
    ensures LoadTodos(Some(SaveTodos(Remove(LoadTodos(file), i)))) == DropTrailingBlank(Remove(LoadTodos(file), i))
  {
    var todos := LoadTodos(file);
    LoadedItemsAreClean(file);
    var rest := Remove(todos, i);
    assert forall k :: 0 <= k < |rest| ==> OneLine(rest[k]) && Trimmed(rest[k]);
    LoadAfterSaveClean(rest);
  }

  /** The file "a\n " holds the items "a" and "": deleting "a" writes "" and the blank item is
      lost with it. */
  lemma DeleteCanLoseBlankItem()
    ensures LoadTodos(Some("a\n ")) == ["a", ""]
    ensures LoadTodos(Some(SaveTodos(Remove(["a", ""], 0)))) == []
  {
    var text := "a\n ";
    assert '\r' !in text;
    TranslatePlainText(text);
    LinesOfBlankSecondLine();
    StripOfBlankSecondLine();
    assert Remove(["a", ""], 0) == [""];
    assert SaveTodos([""]) == "";
  }

  lemma LinesOfBlankSecondLine()
    ensures Lines("a\n ") == ["a\n", " "]
  {
    assert "a\n " == "a" + "\n" + " ";
    LinesAfterLine("a", " ");
    LinesOfLine(" ");
    assert "a" + "\n" == "a\n";
  }

  lemma StripOfBlankSecondLine()
    ensures StripAll(["a\n", " "]) == ["a", ""]
  {
    var lines := ["a\n", " "];
    var t := StripAll(lines);
    assert |t| == 2 && t[0] == Strip(lines[0]) && t[1] == Strip(lines[1]);
    StripLineA();
    StripBlank();
  }

  lemma StripLineA()
    ensures Strip("a\n") == "a"
  {
    StripNewline("a");
    assert "a" + "\n" == "a\n";
    assert Trimmed("a");
  }

  lemma StripBlank()
    ensures Strip(" ") == ""
  {
    assert " "[1..] == "";
    assert StripLeft(" ") == "";
  }
}
