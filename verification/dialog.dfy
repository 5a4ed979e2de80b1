/** Keyboard focus in a dialog, after src/ui/dialog.cpp: a list of controls,
    each of which may or may not accept focus, and a cursor into the list
    (`m_focused`) whose value `|controls|` stands for the end iterator.
    Tab moves the cursor to the next control that accepts focus, shift-tab
    to the previous one, both wrapping around the list. */
module Dialogs {
  import opened Basics

  /** What the dialog sees of a control: whether it accepts focus and
      whether it has it. */
  datatype Control = Control(canFocus: bool, hasFocus: bool)

  datatype DialogState = DialogState(controls: seq<Control>, focused: nat, needReposition: bool)

  /** `std::find_if(begin() + i, end(), can_focus)`: the first control at or
      after `i` that accepts focus, or the end. */
  function FindFrom(cs: seq<Control>, i: nat): (j: nat)
    requires i <= |cs|
    ensures i <= j <= |cs|
    ensures j < |cs| ==> cs[j].canFocus
    ensures forall k :: i <= k < j ==> !cs[k].canFocus
    decreases |cs| - i
  {
    if i == |cs| || cs[i].canFocus then i else FindFrom(cs, i + 1)
  }

  /** `std::find_if` over the reverse range that starts just before `i`: the
      last control before `i` that accepts focus, if any. */
  function FindLast(cs: seq<Control>, i: nat): (r: Option<nat>)
    requires i <= |cs|
    ensures r.Some? ==> r.value < i && cs[r.value].canFocus
    ensures r.Some? ==> forall k :: r.value < k < i ==> !cs[k].canFocus
    ensures r.None? ==> forall k :: 0 <= k < i ==> !cs[k].canFocus
  {
    if i == 0 then None
    else if cs[i - 1].canFocus then Some(i - 1)
    else FindLast(cs, i - 1)
  }

  /** The cursor after tab: the first focusable control after the cursor,
      else the first focusable control of the dialog, else the end. From
      the end the search starts at the first control. */
  function NextCursor(cs: seq<Control>, f: nat): nat
    requires f <= |cs|
  {
    var j := FindFrom(cs, if f < |cs| then f + 1 else 0);
    if j < |cs| then j else FindFrom(cs, 0)
  }

  /** The cursor after shift-tab: the nearest focusable control before the
      cursor, else the last focusable control, else the first control. The
      reverse iterator's base is one past the control found, or `begin()`
      when nothing is found, and is stepped back unless it is `begin()`. */
  function PrevCursor(cs: seq<Control>, f: nat): nat
    requires f <= |cs|
  {
    var r := match FindLast(cs, f) case Some(j) => Some(j) case None => FindLast(cs, |cs|);
    var base := if r.Some? then r.value + 1 else 0;
    if base != 0 then base - 1 else base
  }

  predicate AnyFocusable(cs: seq<Control>) {
    exists k :: 0 <= k < |cs| && cs[k].canFocus
  }

  /** Tab lands on the next focusable control round the list: one after
      the cursor when there is one, else the first; the end only when no
      control accepts focus. */
  lemma NextCursorIsNextFocusable(cs: seq<Control>, f: nat)
    requires f <= |cs|
    ensures var r := NextCursor(cs, f);
      r <= |cs|
      && (r == |cs| <==> !AnyFocusable(cs))
      && (r < |cs| ==> cs[r].canFocus)
      && (f < r ==> forall k :: f < k < r ==> !cs[k].canFocus)
      && (r <= f && f < |cs| ==> forall k :: f < k < |cs| || 0 <= k < r ==> !cs[k].canFocus)
  {
  }

  /** Shift-tab lands on the previous focusable control round the list:
      the nearest one before the cursor, else the last one; the first
      control when none accepts focus. */
  lemma PrevCursorIsPrevFocusable(cs: seq<Control>, f: nat)
    requires f <= |cs|
    ensures var r := PrevCursor(cs, f);
      (AnyFocusable(cs) ==> r < |cs| && cs[r].canFocus)
      && (!AnyFocusable(cs) ==> r == 0)
      && (r < f ==> forall k :: r < k < f ==> !cs[k].canFocus)
      && (f <= r ==> forall k :: 0 <= k < f || r < k < |cs| ==> !cs[k].canFocus)
  {
    if AnyFocusable(cs) {
      var k :| 0 <= k < |cs| && cs[k].canFocus;
      assert FindLast(cs, |cs|).Some?;
    }
  }

  /** Tab then shift-tab from a focusable control comes back to it. */
  lemma {:induction false} PrevUndoesNext(cs: seq<Control>, f: nat)
    requires f < |cs| && cs[f].canFocus
    ensures PrevCursor(cs, NextCursor(cs, f)) == f
  {
    NextCursorIsNextFocusable(cs, f);
    var r := NextCursor(cs, f);
    if f < r {
      assert FindLast(cs, r) == Some(f);
    } else {
      assert FindLast(cs, r).None?;
      assert FindLast(cs, |cs|) == Some(f);
    }
  }

  /** Shift-tab then tab from a focusable control comes back to it. */
  lemma {:induction false} NextUndoesPrev(cs: seq<Control>, f: nat)
    requires f < |cs| && cs[f].canFocus
    ensures NextCursor(cs, PrevCursor(cs, f)) == f
  {
    PrevCursorIsPrevFocusable(cs, f);
    var r := PrevCursor(cs, f);
    if r < f {
      assert FindFrom(cs, r + 1) == f;
    } else {
      assert FindFrom(cs, if r + 1 < |cs| then r + 1 else |cs|) == |cs| by {
        if r + 1 < |cs| {
          assert FindFrom(cs, r + 1) == |cs|;
        }
      }
      assert FindFrom(cs, 0) == f;
    }
  }

  /** The cursor searches look only at which controls accept focus. */
  lemma SameFocusability(cs: seq<Control>, cs': seq<Control>, f: nat)
    requires |cs| == |cs'| && f <= |cs|
    requires forall k :: 0 <= k < |cs| ==> cs[k].canFocus == cs'[k].canFocus
    ensures NextCursor(cs, f) == NextCursor(cs', f)
    ensures PrevCursor(cs, f) == PrevCursor(cs', f)
  {
    assert FindFrom(cs, 0) == FindFrom(cs', 0);
    assert FindLast(cs, f) == FindLast(cs', f);
    assert FindLast(cs, |cs|) == FindLast(cs', |cs|);
  }

  /** `add_control(control)`. */
  function AddControlStep(d: DialogState, c: Control): DialogState {
    DialogState(d.controls + [c], |d.controls| + 1, true)
  }

  /** `give_focus()`: the cursor control gets focus if it accepts it. */
  function GiveFocusStep(d: DialogState): DialogState
    requires d.focused <= |d.controls|
  {
    if d.focused < |d.controls| && d.controls[d.focused].canFocus then
      d.(controls := d.controls[d.focused := d.controls[d.focused].(hasFocus := true)])
    else d
  }

  /** `remove_focus()`: the cursor control loses focus. */
  function RemoveFocusStep(d: DialogState): DialogState
    requires d.focused <= |d.controls|
  {
    if d.focused < |d.controls| then
      d.(controls := d.controls[d.focused := d.controls[d.focused].(hasFocus := false)])
    else d
  }

  /** The cursor control accepts focus but does not have it yet: tab and
      shift-tab only give it focus. */
  predicate CursorAwaitsFocus(d: DialogState) {
    d.focused < |d.controls| && d.controls[d.focused].canFocus && !d.controls[d.focused].hasFocus
  }

  /** `focus_next()`, with the cursor at the end handled as a cursor before
      the first control. */
  function FocusNextStep(d: DialogState): DialogState
    requires d.focused <= |d.controls|
  {
    if CursorAwaitsFocus(d) then GiveFocusStep(d)
    else
      var d1 := RemoveFocusStep(d);
      GiveFocusStep(d1.(focused := NextCursor(d1.controls, d1.focused)))
  }

  /** `focus_next()` as written: `++m_focused` on the end iterator is
      undefined, so the step is defined for a cursor on a control only.
      The cursor lands on a control that accepts focus and now has it, or
      on the end exactly when no control accepts focus. */
  function FocusNextAsWritten(d: DialogState): (r: DialogState)
    requires d.focused < |d.controls|
    ensures |r.controls| == |d.controls| && r.focused <= |r.controls|
    ensures r.focused < |r.controls| <==> AnyFocusable(d.controls)
    ensures r.focused < |r.controls| ==>
      r.controls[r.focused].canFocus && r.controls[r.focused].hasFocus
  {
    FocusNextLands(d);
    FocusNextStep(d)
  }

  lemma FocusNextLands(d: DialogState)
    requires d.focused <= |d.controls|
    ensures var r := FocusNextStep(d);
      |r.controls| == |d.controls| && r.focused <= |r.controls|
      && (r.focused < |r.controls| <==> AnyFocusable(d.controls))
      && (r.focused < |r.controls| ==> r.controls[r.focused].canFocus && r.controls[r.focused].hasFocus)
  {
    if CursorAwaitsFocus(d) {
      assert d.controls[d.focused].canFocus;
    } else {
      var d1 := RemoveFocusStep(d);
      NextCursorIsNextFocusable(d1.controls, d1.focused);
      if AnyFocusable(d.controls) {
        var k :| 0 <= k < |d.controls| && d.controls[k].canFocus;
        assert d1.controls[k].canFocus;
      }
    }
  }

  /** `focus_prev()`. */
  function FocusPrevStep(d: DialogState): DialogState
    requires d.focused <= |d.controls|
  {
    if CursorAwaitsFocus(d) then GiveFocusStep(d)
    else
      var d1 := RemoveFocusStep(d);
      GiveFocusStep(d1.(focused := PrevCursor(d1.controls, d1.focused)))
  }

  /** `add_control` leaves the cursor at the end, where `focus_next` as
      written is undefined: a tab right after adding a control increments
      the end iterator. */
  lemma TabAfterAddControl(d: DialogState, c: Control)
    ensures var d' := AddControlStep(d, c);
      d'.controls == d.controls + [c] && d'.needReposition
      && !(d'.focused < |d'.controls|)
  {
  }

  /** From the end, tab gives focus to the first control that accepts it. */
  lemma TabFromEndFocusesFirst(d: DialogState)
    requires d.focused == |d.controls|
    ensures var d' := FocusNextStep(d);
      d'.focused == FindFrom(d.controls, 0)
      && (d'.focused < |d'.controls| ==> d'.controls[d'.focused].hasFocus)
  {
  }

  /** At most the cursor control has focus. */
  predicate FocusAtCursor(d: DialogState) {
    forall k :: 0 <= k < |d.controls| && d.controls[k].hasFocus ==> k == d.focused
  }

  /** Which controls exist and which accept focus. */
  predicate SameControls(d: DialogState, d': DialogState) {
    |d'.controls| == |d.controls|
    && forall k :: 0 <= k < |d.controls| ==> d'.controls[k].canFocus == d.controls[k].canFocus
  }

  /** After the cursor moved: focus only at the cursor, and there exactly
      when the control accepts it. */
  predicate FocusSettled(d: DialogState) {
    FocusAtCursor(d)
    && (d.focused < |d.controls| ==>
          (d.controls[d.focused].hasFocus <==> d.controls[d.focused].canFocus))
  }

  /** Focus taken from the old cursor control, the cursor moved to `n` and
      focus given there settles the focus at `n`. */
  lemma MoveFocus(d: DialogState, n: nat)
    requires d.focused <= |d.controls| && FocusAtCursor(d) && n <= |d.controls|
    ensures var d' := GiveFocusStep(RemoveFocusStep(d).(focused := n));
      FocusSettled(d') && SameControls(d, d') && d'.focused == n
  {
    var d1 := RemoveFocusStep(d);
    assert forall k :: 0 <= k < |d1.controls| ==> !d1.controls[k].hasFocus;
  }

  /** A tab that moves the cursor takes focus from the old cursor control
      and gives it to the next focusable one; a tab on a cursor control
      awaiting focus only gives it focus. Focus stays at the cursor. */
  lemma TabKeepsFocusAtCursor(d: DialogState)
    requires d.focused <= |d.controls| && FocusAtCursor(d)
    ensures var d' := FocusNextStep(d);
      FocusSettled(d') && SameControls(d, d')
      && d'.focused == if CursorAwaitsFocus(d) then d.focused else NextCursor(d.controls, d.focused)
  {
    if !CursorAwaitsFocus(d) {
      var d1 := RemoveFocusStep(d);
      SameFocusability(d.controls, d1.controls, d.focused);
      MoveFocus(d, NextCursor(d1.controls, d1.focused));
    }
  }

  /** Shift-tab, as `TabKeepsFocusAtCursor` in the other direction. */
  lemma ShiftTabKeepsFocusAtCursor(d: DialogState)
    requires d.focused <= |d.controls| && FocusAtCursor(d)
    ensures var d' := FocusPrevStep(d);
      FocusSettled(d') && SameControls(d, d')
      && d'.focused == if CursorAwaitsFocus(d) then d.focused else PrevCursor(d.controls, d.focused)
  {
    if !CursorAwaitsFocus(d) {
      var d1 := RemoveFocusStep(d);
      SameFocusability(d.controls, d1.controls, d.focused);
      PrevCursorIsPrevFocusable(d1.controls, d1.focused);
      MoveFocus(d, PrevCursor(d1.controls, d1.focused));
    }
  }

  /** `add_control` moves the cursor to the end without taking focus from
      the old cursor control, so focus is no longer at the cursor: with one
      focused control and a second one added, shift-tab gives focus to the
      new control while the first keeps it. */
  lemma AddControlLeavesFocusBehind()
    ensures var d := DialogState([Control(true, true)], 0, false);
      var d' := AddControlStep(d, Control(true, false));
      var d'' := FocusPrevStep(d');
      FocusAtCursor(d) && !FocusAtCursor(d')
      && |d''.controls| == 2 && d''.controls[0].hasFocus && d''.controls[1].hasFocus
  {
    var d := DialogState([Control(true, true)], 0, false);
    var d' := AddControlStep(d, Control(true, false));
    assert d'.controls[0].hasFocus && d'.focused == 2;
    assert FindLast(d'.controls, 2) == Some(1);
  }

  /** When no control has focus, as while a dialog is being built,
      `add_control` of a control without focus keeps focus at the cursor,
      so the tab lemmas above apply afterwards. */
  lemma AddControlKeepsFocusAtCursor(d: DialogState, c: Control)
    requires forall k :: 0 <= k < |d.controls| ==> !d.controls[k].hasFocus
    requires !c.hasFocus
    ensures FocusAtCursor(AddControlStep(d, c))
  {
  }

  class Dialog {
    var controls: seq<Control>
    var focused: nat
    var needReposition: bool

    function View(): DialogState
      reads this
    {
      DialogState(controls, focused, needReposition)
    }

    predicate Valid()
      reads this
    {
      focused <= |controls|
    }

    /** `add_control(control)`: appended at the end, the cursor at the end,
        the controls to be repositioned. */
    method AddControl(c: Control)
      modifies this
      ensures Valid()
      ensures View() == AddControlStep(old(View()), c)
    {
      controls := controls + [c];
      focused := |controls|;
      needReposition := true;
    }

    /** `give_focus()`. */
    method GiveFocus()
      requires Valid()
      modifies this
      ensures Valid()
      ensures View() == GiveFocusStep(old(View()))
    {
      if focused < |controls| && controls[focused].canFocus {
        controls := controls[focused := controls[focused].(hasFocus := true)];
      }
    }

    /** `remove_focus()`. */
    method RemoveFocus()
      requires Valid()
      modifies this
      ensures Valid()
      ensures View() == RemoveFocusStep(old(View()))
    {
      if focused < |controls| {
        controls := controls[focused := controls[focused].(hasFocus := false)];
      }
    }

    /** The forward `std::find_if` from control `i`. */
    method FindForward(i: nat) returns (j: nat)
      requires i <= |controls|
      ensures j == FindFrom(controls, i)
    {
      j := i;
      while j < |controls| && !controls[j].canFocus
        invariant i <= j <= |controls|
        invariant FindFrom(controls, j) == FindFrom(controls, i)
      {
        j := j + 1;
      }
    }

    /** The reverse `std::find_if` from just before control `i`. */
    method FindBackward(i: nat) returns (r: Option<nat>)
      requires i <= |controls|
      ensures r == FindLast(controls, i)
    {
      var j: nat := i;
      while j > 0 && !controls[j - 1].canFocus
        invariant j <= i
        invariant FindLast(controls, j) == FindLast(controls, i)
      {
        j := j - 1;
      }
      r := if j == 0 then None else Some(j - 1);
    }

    /** `focus_next()`, tab. */
    method FocusNext()
      requires Valid()
      modifies this
      ensures Valid()
      ensures View() == FocusNextStep(old(View()))
    {
      if focused < |controls| && controls[focused].canFocus && !controls[focused].hasFocus {
        GiveFocus();
      } else {
        RemoveFocus();
        var result := FindForward(if focused < |controls| then focused + 1 else 0);
        if result == |controls| {
          result := FindForward(0);
        }
        focused := result;
        GiveFocus();
      }
    }

    /** `focus_prev()`, shift-tab. */
    method FocusPrev()
      requires Valid()
      modifies this
      ensures Valid()
      ensures View() == FocusPrevStep(old(View()))
    {
      if focused < |controls| && controls[focused].canFocus && !controls[focused].hasFocus {
        GiveFocus();
      } else {
        RemoveFocus();
        var result := FindBackward(focused);
        if result.None? {
          result := FindBackward(|controls|);
        }
        focused := if result.Some? then result.value + 1 else 0;
        if focused != 0 {
          focused := focused - 1;
        }
        GiveFocus();
      }
    }
  }
}
