/** `progressbar` of dougerino.py: the text of a console progress bar, and
    the remembered last display that keeps an unchanged bar from being
    printed again. The number of completed cells, `int(bar_length *
    progress)` in the source, is a parameter. */
module Progress {
  import opened Values
  import opened Strings

  /** The bar as built from the completed count: all todo cells at zero,
      all done cells when complete, otherwise done cells up to a `>` and
      todo cells after it. */
  function Bar(done: int, barLength: int, doneChar: string, todoChar: string): string
  {
    var todo := barLength - done;
    if done == 0 then "[" + Repeat(todoChar, barLength) + "]"
    else if done == barLength then "[" + Repeat(doneChar, barLength) + "]"
    else "[" + Repeat(doneChar, done - 1) + ">" + Repeat(todoChar, todo) + "]"
  }

  /** The bar of a finished task. */
  function Full(barLength: int, doneChar: string): string
  {
    "[" + Repeat(doneChar, barLength) + "]"
  }

  /** The display string: the bar, with a line break after it once it is
      full. */
  function Display(done: int, barLength: int, doneChar: string, todoChar: string): (s: string)
    ensures Bar(done, barLength, doneChar, todoChar) <= s
  {
    var bar := Bar(done, barLength, doneChar, todoChar);
    if bar == Full(barLength, doneChar) then bar + "\n" else bar
  }

  /** The cell at position `i` (1 to `barLength`) of the bar. */
  function Cell(i: int, done: int, barLength: int, doneChar: char, todoChar: char): char
  {
    if done == barLength || i < done then doneChar
    else if i == done then '>'
    else todoChar
  }

  /** Whether the display string ends the line. */
  predicate EndsLine(s: string)
  {
    s != [] && s[|s| - 1] == '\n'
  }

  /** For a count between zero and the bar length, and distinct one-letter
      done and todo marks: the display is `[`, then `barLength` cells, then
      `]`. The cells are all todo marks at zero, all done marks when
      complete, and otherwise `done - 1` done marks, a `>` and todo marks.
      A line break follows exactly when the bar is complete. The marks must
      differ: with equal marks an empty bar equals the full one, and the
      display of zero progress also ends the line. */
  lemma DisplayShape(done: int, barLength: int, doneChar: string, todoChar: string)
    requires 0 <= done <= barLength
    requires |doneChar| == 1 && |todoChar| == 1
    requires doneChar != todoChar
    ensures var s := Display(done, barLength, doneChar, todoChar);
      && |s| == barLength + 2 + (if done == barLength then 1 else 0)
      && s[0] == '[' && s[barLength + 1] == ']'
      && (forall i :: 1 <= i <= barLength ==> s[i] == Cell(i, done, barLength, doneChar[0], todoChar[0]))
      && (EndsLine(s) <==> done == barLength)
  {
    var bar := Bar(done, barLength, doneChar, todoChar);
    BarShape(done, barLength, doneChar, todoChar);
    if done != barLength {
      assert bar != Full(barLength, doneChar) by {
        var full := Full(barLength, doneChar);
        assert full[if done == 0 then 1 else barLength] == doneChar[0];
      }
    } else {
      assert bar == Full(barLength, doneChar);
    }
  }

  /** The bar itself: `[`, the cells, `]`. */
  lemma BarShape(done: int, barLength: int, doneChar: string, todoChar: string)
    requires 0 <= done <= barLength
    requires |doneChar| == 1 && |todoChar| == 1
    ensures var bar := Bar(done, barLength, doneChar, todoChar);
      && |bar| == barLength + 2
      && bar[0] == '[' && bar[barLength + 1] == ']'
      && forall i :: 1 <= i <= barLength ==> bar[i] == Cell(i, done, barLength, doneChar[0], todoChar[0])
  {
    if 0 < done < barLength {
      var head := "[" + Repeat(doneChar, done - 1);
      var bar := Bar(done, barLength, doneChar, todoChar);
      assert bar == head + ">" + Repeat(todoChar, barLength - done) + "]";
      assert |head| == done;
      forall i | 1 <= i <= barLength
        ensures bar[i] == Cell(i, done, barLength, doneChar[0], todoChar[0])
      {
        if i < done {
          assert bar[i] == head[i];
        } else if i > done {
          assert bar[i] == Repeat(todoChar, barLength - done)[i - done - 1];
        }
      }
    }
  }

  /** The state `progressbar` keeps between calls: the text it printed
      last. `None` stands for the function attribute before any
      assignment. */
  class ProgressBar {
    var lastDisplay: Option<string>

    /** The state as the module leaves it: the attribute is never
        assigned before the first call. */
    constructor Unset()
      ensures lastDisplay == None
    {
      lastDisplay := None;
    }

    /** A state whose last display is empty, so that the first call prints
        its bar. */
    constructor ()
      ensures lastDisplay == Some("")
    {
      lastDisplay := Some("");
    }

    /** One call of `progressbar`: reading the attribute before it was
        assigned is an AttributeError; otherwise a display string that
        differs from the last one is printed after a carriage return and
        remembered, and an equal one prints nothing. */
    method Show(done: int, barLength: int, doneChar: string, todoChar: string)
      returns (printed: Result<Option<string>>)
      modifies this
      ensures old(lastDisplay).None? ==> printed == Err(AttributeError) && lastDisplay == None
      ensures old(lastDisplay).Some? ==>
        var s := Display(done, barLength, doneChar, todoChar);
        if old(lastDisplay).value != s then printed == Ok(Some("\r" + s)) && lastDisplay == Some(s)
        else printed == Ok(None) && lastDisplay == old(lastDisplay)
    {
      var displaystr := Display(done, barLength, doneChar, todoChar);
      if lastDisplay.None? {
        return Err(AttributeError);
      }
      if lastDisplay.value != displaystr {
        printed := Ok(Some("\r" + displaystr));
        lastDisplay := Some(displaystr);
      } else {
        printed := Ok(None);
      }
    }
  }

  /** The first call of `progressbar` in a program fails: the module never
      assigns the attribute it reads. */
  method FirstCallAsWritten(done: int, barLength: int, doneChar: string, todoChar: string)
    returns (printed: Result<Option<string>>)
    ensures printed == Err(AttributeError)
  {
    var bar := new ProgressBar.Unset();
    printed := bar.Show(done, barLength, doneChar, todoChar);
  }

  /** With the attribute set to an empty text first, the first call prints
      its bar, and a second call with the same count prints nothing. */
  method FirstCallsInitialised(done: int, barLength: int, doneChar: string, todoChar: string)
    returns (first: Result<Option<string>>, second: Result<Option<string>>)
    ensures first == Ok(Some("\r" + Display(done, barLength, doneChar, todoChar)))
    ensures second == Ok(None)
  {
    var bar := new ProgressBar();
    first := bar.Show(done, barLength, doneChar, todoChar);
    second := bar.Show(done, barLength, doneChar, todoChar);
  }
}
