/** Vim's word motions over messages, their visible lines and the cursor stops on them. */
module Words {
  import opened Arithmetic

  datatype Class = Keyword | Whitespace | Other | Empty {
    predicate IsWord() {
      Keyword? || Other?
    }

    /** The class under `W`, `B` and `E`, where any non-blank run is one word. */
    function Widen(kind: WordKind): Class {
      if kind.Big? && Other? then Keyword else this
    }
  }

  datatype WordKind = Small | Big

  datatype Step = SameLine | NewLine

  /** Messages of visible lines of stops. */
  type Buffer = seq<seq<seq<Class>>>

  datatype Spot = Spot(message: nat, line: nat, index: nat)

  /** Every message shows a line and every line has a stop. */
  ghost predicate Filled(buf: Buffer) {
    && (forall m :: 0 <= m < |buf| ==> |buf[m]| >= 1)
    && (forall m, l :: 0 <= m < |buf| && 0 <= l < |buf[m]| ==> |buf[m][l]| >= 1)
  }

  predicate In(buf: Buffer, s: Spot) {
    s.message < |buf| && s.line < |buf[s.message]| && s.index < |buf[s.message][s.line]|
  }

  function At(buf: Buffer, s: Spot): Class
    requires In(buf, s)
  {
    buf[s.message][s.line][s.index]
  }

  /** Reading order. */
  predicate Before(a: Spot, b: Spot) {
    || a.message < b.message
    || (a.message == b.message && a.line < b.line)
    || (a.message == b.message && a.line == b.line && a.index < b.index)
  }

  // --- Walking stops ---------------------------------------------------------------

  function LineAfter(buf: Buffer, message: nat, line: nat): Option<(nat, nat)>
    requires message < |buf|
  {
    if line + 1 < |buf[message]| then Some((message, line + 1))
    else if message + 1 < |buf| then Some((message + 1, 0))
    else None
  }

  function LineBefore(buf: Buffer, message: nat, line: nat): Option<(nat, nat)>
    requires message < |buf| && Filled(buf)
  {
    if line > 0 then Some((message, line - 1))
    else if message == 0 then None
    else Some((message - 1, |buf[message - 1]| - 1))
  }

  ghost predicate IsSuccessor(buf: Buffer, a: Spot, b: Spot) {
    && In(buf, a) && In(buf, b) && Before(a, b)
    && forall s :: In(buf, s) && Before(a, s) ==> s == b || Before(b, s)
  }

  ghost predicate IsLast(buf: Buffer, a: Spot) {
    In(buf, a) && forall s :: In(buf, s) ==> s == a || Before(s, a)
  }

  ghost predicate IsFirst(buf: Buffer, a: Spot) {
    In(buf, a) && forall s :: In(buf, s) ==> s == a || Before(a, s)
  }

  // --- What the motions promise ----------------------------------------------------

  /** Two neighbours are of one word: of one class, or under `W`, `B` and `E` merely no blanks. */
  ghost predicate OneWord(a: Class, b: Class, kind: WordKind) {
    if kind.Big? then (a.Keyword? || a.Other?) && (b.Keyword? || b.Other?) else a == b
  }

  /** Where a word begins; an empty line is a word of its own. */
  ghost predicate WordStart(buf: Buffer, s: Spot, kind: WordKind)
    requires In(buf, s)
  {
    var c := At(buf, s);
    c == Empty
    || (c.IsWord() && (s.index == 0 || !OneWord(At(buf, s.(index := s.index - 1)), c, kind)))
  }

  ghost predicate WordFinish(buf: Buffer, s: Spot, kind: WordKind)
    requires In(buf, s)
  {
    var c := At(buf, s);
    && c.IsWord()
    && (s.index + 1 == |buf[s.message][s.line]| || !OneWord(At(buf, s.(index := s.index + 1)), c, kind))
  }

  datatype Mark = Start | Finish

  ghost predicate Marked(buf: Buffer, s: Spot, kind: WordKind, mark: Mark)
    requires In(buf, s)
  {
    match mark
    case Start => WordStart(buf, s, kind)
    case Finish => WordFinish(buf, s, kind)
  }

  /** `r` is the least marked stop after `s`, else the last stop. */
  ghost predicate NextMark(buf: Buffer, s: Spot, kind: WordKind, mark: Mark, r: Spot) {
    && In(buf, r)
    && (if Marked(buf, r, kind, mark) && Before(s, r)
        then forall t :: In(buf, t) && Before(s, t) && Marked(buf, t, kind, mark) ==> t == r || Before(r, t)
        else IsLast(buf, r) && forall t :: In(buf, t) && Before(s, t) ==> !Marked(buf, t, kind, mark))
  }

  /** `w` from `s` lands on `r`: the least word start after `s`, else the last stop. */
  ghost predicate Forward(buf: Buffer, s: Spot, kind: WordKind, r: Spot) {
    NextMark(buf, s, kind, Start, r)
  }

  /** `e` from `s` lands on `r`: the least word end after `s`, else the last stop. */
  ghost predicate End(buf: Buffer, s: Spot, kind: WordKind, r: Spot) {
    NextMark(buf, s, kind, Finish, r)
  }

  /** `b` from `s` lands on `r`: the greatest word start before `s`, else the first stop. */
  ghost predicate Back(buf: Buffer, s: Spot, kind: WordKind, r: Spot) {
    && In(buf, r)
    && (if WordStart(buf, r, kind) && Before(r, s)
        then forall t :: In(buf, t) && Before(t, s) && WordStart(buf, t, kind) ==> t == r || Before(t, r)
        else IsFirst(buf, r) && forall t :: In(buf, t) && Before(t, s) ==> !WordStart(buf, t, kind))
  }

  /** `b` undoes `w` from any word start that has another one after it. */
  lemma {:induction false} BackUndoesForward(buf: Buffer, s: Spot, next: Spot, kind: WordKind, r: Spot, back: Spot)
    requires In(buf, s) && WordStart(buf, s, kind)
    requires In(buf, next) && WordStart(buf, next, kind) && Before(s, next)
    requires Forward(buf, s, kind, r) && Back(buf, r, kind, back)
    ensures back == s
  {
  }

  /** Each motion's promise names one stop. */
  lemma {:induction false} MotionsAreFunctions(buf: Buffer, s: Spot, kind: WordKind, a: Spot, b: Spot)
    ensures Forward(buf, s, kind, a) && Forward(buf, s, kind, b) ==> a == b
    ensures Back(buf, s, kind, a) && Back(buf, s, kind, b) ==> a == b
    ensures End(buf, s, kind, a) && End(buf, s, kind, b) ==> a == b
  {
  }

  // --- Scanning ------------------------------------------------------------------------

  /** Nothing is marked strictly between `s` and `here`. */
  ghost predicate Clear(buf: Buffer, s: Spot, here: Spot, kind: WordKind, mark: Mark) {
    forall t :: In(buf, t) && Before(s, t) && Before(t, here) ==> !Marked(buf, t, kind, mark)
  }

  /** Walking on from an unmarked stop, or from where the motion began, keeps the scan clear. */
  lemma {:induction false} ClearStep(buf: Buffer, s: Spot, here: Spot, next: Spot, kind: WordKind, mark: Mark)
    requires Clear(buf, s, here, kind, mark) && IsSuccessor(buf, here, next)
    requires here == s || !Marked(buf, here, kind, mark)
    ensures Clear(buf, s, next, kind, mark)
  {
  }

  lemma {:induction false} ClearFound(buf: Buffer, s: Spot, here: Spot, kind: WordKind, mark: Mark)
    requires In(buf, here) && Clear(buf, s, here, kind, mark) && Before(s, here) && Marked(buf, here, kind, mark)
    ensures NextMark(buf, s, kind, mark, here)
  {
  }

  lemma {:induction false} ClearToLast(buf: Buffer, s: Spot, here: Spot, kind: WordKind, mark: Mark)
    requires Clear(buf, s, here, kind, mark) && IsLast(buf, here)
    requires here == s || !Marked(buf, here, kind, mark)
    ensures NextMark(buf, s, kind, mark, here)
  {
  }

  lemma {:induction false} BackStep(buf: Buffer, s: Spot, here: Spot, next: Spot, kind: WordKind)
    requires Clear(buf, here, s, kind, Start) && IsSuccessor(buf, next, here)
    requires here == s || !WordStart(buf, here, kind)
    ensures Clear(buf, next, s, kind, Start)
  {
    assert here == s || !Marked(buf, here, kind, Start);
  }

  lemma {:induction false} BackFound(buf: Buffer, s: Spot, here: Spot, kind: WordKind)
    requires In(buf, here) && Clear(buf, here, s, kind, Start) && Before(here, s) && WordStart(buf, here, kind)
    ensures Back(buf, s, kind, here)
  {
    forall t | In(buf, t) && Before(t, s) && WordStart(buf, t, kind)
      ensures t == here || Before(t, here)
    {
      assert Marked(buf, t, kind, Start);
    }
  }

  lemma {:induction false} BackToFirst(buf: Buffer, s: Spot, here: Spot, kind: WordKind)
    requires Clear(buf, here, s, kind, Start) && IsFirst(buf, here)
    requires here == s || !WordStart(buf, here, kind)
    ensures Back(buf, s, kind, here)
  {
    forall t | In(buf, t) && Before(t, s)
      ensures !WordStart(buf, t, kind)
    {
      assert !(Before(here, t)) || !Marked(buf, t, kind, Start);
    }
  }

  // --- The walk ------------------------------------------------------------------------

  class StopWalk {
    var message: nat
    var line: nat
    var index: nat
    var stops: seq<Class>

    ghost predicate On(buf: Buffer)
      reads this
    {
      In(buf, Here()) && stops == buf[message][line]
    }

    ghost function Here(): Spot
      reads this
    {
      Spot(message, line, index)
    }

    constructor (buf: Buffer, s: Spot)
      requires In(buf, s)
      ensures On(buf) && Here() == s
    {
      message, line, index, stops := s.message, s.line, s.index, buf[s.message][s.line];
    }

    method WalkNext(buf: Buffer) returns (step: Option<Step>)
      requires Filled(buf) && On(buf)
      modifies this
      ensures On(buf)
      ensures step.None? ==> Here() == old(Here()) && IsLast(buf, Here())
      ensures step.Some? ==> IsSuccessor(buf, old(Here()), Here())
      ensures step == Some(SameLine) <==> old(index) + 1 < |old(stops)|
      ensures step.Some? ==> if step.value.NewLine? then index == 0
                             else Here() == old(Here()).(index := old(index) + 1)
    {
      if index + 1 < |stops| {
        index := index + 1;
        return Some(SameLine);
      }
      var next := LineAfter(buf, message, line);
      if next.None? {
        return None;
      }
      message, line, index := next.value.0, next.value.1, 0;
      stops := buf[message][line];
      return Some(NewLine);
    }

    method WalkPrev(buf: Buffer) returns (step: Option<Step>)
      requires Filled(buf) && On(buf)
      modifies this
      ensures On(buf)
      ensures step.None? ==> Here() == old(Here()) && IsFirst(buf, Here())
      ensures step.Some? ==> IsSuccessor(buf, Here(), old(Here()))
      ensures step == Some(SameLine) <==> old(index) > 0
      ensures step == Some(SameLine) ==> Here() == old(Here()).(index := old(index) - 1)
    {
      if index > 0 {
        index := index - 1;
        return Some(SameLine);
      }
      var previous := LineBefore(buf, message, line);
      if previous.None? {
        return None;
      }
      message, line := previous.value.0, previous.value.1;
      stops := buf[message][line];
      index := |stops| - 1;
      return Some(NewLine);
    }

    /** `w`: past the current word, then past blanks and line breaks. */
    method WordForward(buf: Buffer, kind: WordKind)
      requires Filled(buf) && On(buf)
      modifies this
      ensures On(buf) && Forward(buf, old(Here()), kind, Here())
    {
      hide IsLast, NextMark, Clear, Filled, WordStart;
      ghost var s := Here();
      var more := LeaveWord(buf, kind);
      if !more {
        return;
      }
      while stops[index] == Whitespace
        invariant On(buf) && Before(s, Here()) && Clear(buf, s, Here(), kind, Start)
        invariant stops[index] == Whitespace || WordStart(buf, Here(), kind)
        decreases |buf| - message, |buf[message]| - line, |stops| - index
      {
        ghost var here := Here();
        BlankIsUnmarked(buf, here, kind);
        var step := WalkNext(buf);
        if step.None? {
          ClearToLast(buf, s, here, kind, Start);
          return;
        }
        ClearStep(buf, s, here, Here(), kind, Start);
        BreakStarts(buf, here, Here(), kind);
      }
      ClearFound(buf, s, Here(), kind, Start);
    }

    /** Leaves the word under the cursor, or takes one step when it is not on a word. */
    method LeaveWord(buf: Buffer, kind: WordKind) returns (more: bool)
      requires Filled(buf) && On(buf)
      modifies this
      ensures On(buf)
      ensures !more ==> NextMark(buf, old(Here()), kind, Start, Here())
      ensures more ==>
                && Before(old(Here()), Here()) && Clear(buf, old(Here()), Here(), kind, Start)
                && (stops[index] == Whitespace || WordStart(buf, Here(), kind))
    {
      hide IsLast, NextMark, Clear, Filled;
      ghost var s := Here();
      var start := stops[index].Widen(kind);
      ClearAtStart(buf, s, kind, Start);
      var step := WalkNext(buf);
      if step.None? {
        ClearToLast(buf, s, s, kind, Start);
        return false;
      }
      ClearStep(buf, s, s, Here(), kind, Start);
      while start.IsWord() && step.value.SameLine? && stops[index].Widen(kind) == start
        invariant On(buf) && step.Some? && Before(s, Here()) && Clear(buf, s, Here(), kind, Start)
        invariant step.value.NewLine? ==> index == 0
        invariant step.value.SameLine? ==>
                    message == s.message && line == s.line && index > 0 && stops[index - 1].Widen(kind) == start
        decreases step.value.SameLine?, |buf[s.message][s.line]| - index
      {
        ghost var here := Here();
        step := WalkNext(buf);
        if step.None? {
          ClearToLast(buf, s, here, kind, Start);
          return false;
        }
        ClearStep(buf, s, here, Here(), kind, Start);
      }
      BreakStarts(buf, if step.value.NewLine? then s else Here().(index := index - 1), Here(), kind);
      return true;
    }

    /** `e`: forward at least one stop, past blanks and empty lines, then to the end of that word. */
    method WordEnd(buf: Buffer, kind: WordKind)
      requires Filled(buf) && On(buf)
      modifies this
      ensures On(buf) && End(buf, old(Here()), kind, Here())
    {
      hide IsSuccessor, IsLast, NextMark, Clear, Filled;
      ghost var s := Here();
      ClearAtStart(buf, s, kind, Finish);
      var step := WalkNext(buf);
      if step.None? {
        ClearToLast(buf, s, s, kind, Finish);
        return;
      }
      ClearStep(buf, s, s, Here(), kind, Finish);
      SuccessorIsLater(buf, s, Here());
      while !stops[index].IsWord()
        invariant On(buf) && Before(s, Here()) && Clear(buf, s, Here(), kind, Finish)
        decreases |buf| - message, |buf[message]| - line, |stops| - index
      {
        ghost var here := Here();
        step := WalkNext(buf);
        if step.None? {
          ClearToLast(buf, s, here, kind, Finish);
          return;
        }
        ClearStep(buf, s, here, Here(), kind, Finish);
        SuccessorIsLater(buf, here, Here());
      }
      var word := stops[index].Widen(kind);
      while index + 1 < |stops| && stops[index + 1].Widen(kind) == word
        invariant On(buf) && Before(s, Here()) && Clear(buf, s, Here(), kind, Finish)
        invariant stops[index].Widen(kind) == word && word.IsWord()
      {
        NextInLine(buf, Here());
        ClearStep(buf, s, Here(), Here().(index := index + 1), kind, Finish);
        index := index + 1;
      }
      ClearFound(buf, s, Here(), kind, Finish);
    }

    /** `b`: back at least one stop, past blanks and line breaks, then to the start of that word. */
    method WordBack(buf: Buffer, kind: WordKind)
      requires Filled(buf) && On(buf)
      modifies this
      ensures On(buf) && Back(buf, old(Here()), kind, Here())
    {
      hide IsSuccessor, IsFirst, Back, Clear, Filled;
      ghost var s := Here();
      ClearAtStart(buf, s, kind, Start);
      var step := WalkPrev(buf);
      if step.None? {
        BackToFirst(buf, s, s, kind);
        return;
      }
      BackStep(buf, s, s, Here(), kind);
      SuccessorIsLater(buf, Here(), s);
      while stops[index] == Whitespace
        invariant On(buf) && Before(Here(), s) && Clear(buf, Here(), s, kind, Start)
        decreases message, line, index
      {
        ghost var here := Here();
        step := WalkPrev(buf);
        if step.None? {
          BackToFirst(buf, s, here, kind);
          return;
        }
        BackStep(buf, s, here, Here(), kind);
        SuccessorIsLater(buf, Here(), here);
      }
      var word := stops[index].Widen(kind);
      if !word.IsWord() {
        BackFound(buf, s, Here(), kind);
        return;
      }
      while index > 0 && stops[index - 1].Widen(kind) == word
        invariant On(buf) && Before(Here(), s) && Clear(buf, Here(), s, kind, Start)
        invariant stops[index].Widen(kind) == word
      {
        NextInLine(buf, Here().(index := index - 1));
        BackStep(buf, s, Here(), Here().(index := index - 1), kind);
        index := index - 1;
      }
      BackFound(buf, s, Here(), kind);
    }
  }

  lemma {:induction false} BlankIsUnmarked(buf: Buffer, s: Spot, kind: WordKind)
    requires In(buf, s) && At(buf, s) == Whitespace
    ensures !Marked(buf, s, kind, Start)
  {
  }

  lemma {:induction false} ClearAtStart(buf: Buffer, s: Spot, kind: WordKind, mark: Mark)
    ensures Clear(buf, s, s, kind, mark)
  {
  }

  lemma {:induction false} SuccessorIsLater(buf: Buffer, a: Spot, b: Spot)
    requires IsSuccessor(buf, a, b)
    ensures Before(a, b)
    ensures a.message < b.message || (a.message == b.message && a.line <= b.line)
  {
  }

  /** After a line break, a change of class or a stop outside words, a stop is blank or starts a word. */
  lemma {:induction false} BreakStarts(buf: Buffer, here: Spot, next: Spot, kind: WordKind)
    requires In(buf, here) && In(buf, next)
    requires next.index == 0
             || (next == here.(index := here.index + 1)
                 && (At(buf, here).Widen(kind) != At(buf, next).Widen(kind) || !At(buf, here).IsWord()))
    ensures At(buf, next) == Whitespace || WordStart(buf, next, kind)
  {
  }

  lemma {:induction false} NextInLine(buf: Buffer, s: Spot)
    requires In(buf, s) && s.index + 1 < |buf[s.message][s.line]|
    ensures IsSuccessor(buf, s, s.(index := s.index + 1))
  {
  }
}
