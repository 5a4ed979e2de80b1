/** The file browser of src/view/file_view.cpp: a browser-style history
    of the directories visited, with back and forward, opening a directory
    named by one element of the current path, and tab-key focus over the
    view's eight controls. Paths are values of any type with equality; the
    parent of a path and the number of its elements come from the
    filesystem library and are parameters. */
module FileBrowser {

  /** The directories visited, oldest first, and the index of the current
      one; `cur == |paths|` stands for the end iterator, no current
      directory. */
  datatype History<P> = History(paths: seq<P>, cur: nat)

  /** The histories the browser reaches: the cursor is on an entry, or at
      the end of an empty history. */
  predicate Consistent<P>(h: History<P>) {
    h.cur <= |h.paths| && (h.cur == |h.paths| ==> h.paths == [])
  }

  /** `open_path(p)`: with no current directory `p` is appended; a `p`
      other than the current directory replaces every entry after the
      current one; the current directory itself changes nothing. */
  function OpenPathStep<P(==)>(h: History<P>, p: P): (r: History<P>)
    requires h.cur <= |h.paths|
    ensures r.cur < |r.paths| && r.paths[r.cur] == p && r.cur <= |h.paths|
    ensures r.paths[..r.cur] == h.paths[..r.cur]
    ensures h.cur < |h.paths| && p == h.paths[h.cur] ==> r == h
    ensures r != h ==> r.cur == |r.paths| - 1
    ensures r != h ==> r.cur == (if h.cur == |h.paths| then |h.paths| else h.cur + 1)
  {
    if h.cur == |h.paths| then History(h.paths + [p], |h.paths|)
    else if p != h.paths[h.cur] then History(h.paths[..h.cur + 1] + [p], h.cur + 1)
    else h
  }

  /** `back()`: one entry earlier unless at the first. */
  function BackStep<P>(h: History<P>): History<P> {
    if h.cur != 0 then h.(cur := h.cur - 1) else h
  }

  /** `forward()`: one entry later, from an entry that is not the last. */
  function ForwardStep<P>(h: History<P>): History<P> {
    if h.cur < |h.paths| && h.cur + 1 < |h.paths| then h.(cur := h.cur + 1) else h
  }

  /** Back and forward move the cursor only; forward never moves it to the
      end. */
  lemma BackForwardKeepEntries<P>(h: History<P>)
    requires h.cur <= |h.paths|
    ensures BackStep(h).paths == h.paths && ForwardStep(h).paths == h.paths
    ensures BackStep(h).cur <= h.cur
    ensures ForwardStep(h).cur >= h.cur
    ensures ForwardStep(h).cur == |h.paths| ==> h.cur == |h.paths|
  {
  }

  /** Every step keeps the history consistent. */
  lemma StepsKeepConsistent<P>(h: History<P>, p: P)
    requires Consistent(h)
    ensures Consistent(OpenPathStep(h, p))
    ensures Consistent(BackStep(h))
    ensures Consistent(ForwardStep(h))
  {
  }

  /** Forward undoes a back that moved off an entry. */
  lemma ForwardUndoesBack<P>(h: History<P>)
    requires 0 < h.cur < |h.paths|
    ensures ForwardStep(BackStep(h)) == h
  {
  }

  /** Back undoes a forward that moved. */
  lemma BackUndoesForward<P>(h: History<P>)
    requires h.cur + 1 < |h.paths|
    ensures BackStep(ForwardStep(h)) == h
  {
  }

  /** After opening a new directory, back returns to the directory that
      was current, and forward returns to the new one. */
  lemma BackAfterOpen<P>(h: History<P>, p: P)
    requires h.cur < |h.paths| && p != h.paths[h.cur]
    ensures var b := BackStep(OpenPathStep(h, p));
      b.cur < |b.paths| && b.paths[b.cur] == h.paths[h.cur]
      && ForwardStep(b) == OpenPathStep(h, p)
  {
  }

  /** The path `n` parent steps above `p`. */
  function Ancestor<P>(parent: P -> P, p: P, n: nat): P {
    if n == 0 then p else parent(Ancestor(parent, p, n - 1))
  }

  /** Going up `a` levels and then `b` more is going up `a + b` levels. */
  lemma {:induction false} AncestorAdd<P>(parent: P -> P, p: P, a: nat, b: nat)
    ensures Ancestor(parent, Ancestor(parent, p, a), b) == Ancestor(parent, p, a + b)
  {
    if b > 0 {
      AncestorAdd(parent, p, a, b - 1);
    }
  }

  /** How many parent steps `open_subdir(index)` takes on a path of
      `count` elements. */
  function SubdirLevels(index: int, count: int): (n: nat)
    ensures index + 1 < count ==> index + n + 1 == count
    ensures index + 1 >= count ==> n == 0
  {
    if index + 1 < count then count - 1 - index else 0
  }

  /** `open_subdir(index)`: open the ancestor of the current directory
      named by its element `index`, counted from the first element. */
  function SubdirStep<P(==)>(h: History<P>, parent: P -> P, elements: P -> nat, index: int): History<P>
    requires h.cur <= |h.paths|
  {
    if h.cur < |h.paths| then
      var p := h.paths[h.cur];
      OpenPathStep(h, Ancestor(parent, p, SubdirLevels(index, elements(p))))
    else h
  }

  /** When each parent step drops one element of a path that has more
      than one, the directory `open_subdir(index)` opens has exactly the
      first `index + 1` elements. */
  lemma {:induction false} SubdirElements<P>(parent: P -> P, elements: P -> nat, p: P, index: nat)
    requires forall q :: elements(q) > 1 ==> elements(parent(q)) == elements(q) - 1
    requires index < elements(p)
    ensures elements(Ancestor(parent, p, SubdirLevels(index, elements(p)))) == index + 1
  {
    AncestorElements(parent, elements, p, SubdirLevels(index, elements(p)));
  }

  lemma {:induction false} AncestorElements<P>(parent: P -> P, elements: P -> nat, p: P, n: nat)
    requires forall q :: elements(q) > 1 ==> elements(parent(q)) == elements(q) - 1
    requires n < elements(p)
    ensures elements(Ancestor(parent, p, n)) == elements(p) - n
  {
    if n > 0 {
      AncestorElements(parent, elements, p, n - 1);
    }
  }

  /** Opening the last element of the current path changes nothing. */
  lemma SubdirLastIsCurrent<P>(h: History<P>, parent: P -> P, elements: P -> nat)
    requires h.cur < |h.paths|
    ensures SubdirStep(h, parent, elements, elements(h.paths[h.cur]) - 1) == h
  {
  }

  /** `up()`: open the parent of the current directory, if it has one. */
  function UpStep<P(==)>(h: History<P>, parent: P -> P, hasParent: P -> bool): History<P>
    requires h.cur <= |h.paths|
  {
    if h.cur < |h.paths| && hasParent(h.paths[h.cur]) then OpenPathStep(h, parent(h.paths[h.cur]))
    else h
  }

  // ---------------------------------------------------------------------
  // Keyboard focus over the controls `m_controls`, in this order: menu,
  // home, saved, up, back, forward, filename box, open.

  const ControlCount: nat := 8
  const MenuButton: nat := 0
  const FilenameBox: nat := 6

  /** The first focused control, or the number of controls when none is. */
  function FirstFocused(f: seq<bool>): (i: nat)
    ensures i <= |f|
    ensures i < |f| ==> f[i]
    ensures forall k :: 0 <= k < i ==> !f[k]
  {
    if f == [] || f[0] then 0 else 1 + FirstFocused(f[1..])
  }

  /** The control after (or before) control `i`, round the list of `n`. */
  function Neighbour(i: nat, n: nat, fwd: bool): (j: nat)
    requires i < n
    ensures j < n
  {
    if i == 0 && !fwd then n - 1
    else if i == n - 1 && fwd then 0
    else if fwd then i + 1 else i - 1
  }

  /** `switch_focus(fwd)`: the first focused control hands focus to its
      neighbour; with none focused, the menu button (forward) or the
      filename box (backward) gets focus. */
  function SwitchFocusStep(f: seq<bool>, fwd: bool): seq<bool>
    requires |f| == ControlCount
  {
    var i := FirstFocused(f);
    if i < |f| then f[i := false][Neighbour(i, |f|, fwd) := true]
    else f[if fwd then MenuButton else FilenameBox := true]
  }

  /** Control `j` and no other has focus. */
  predicate FocusedOnly(f: seq<bool>, j: nat) {
    j < |f| && forall k :: 0 <= k < |f| ==> (f[k] <==> k == j)
  }

  /** With one control focused, tab moves focus to the next control and
      shift-tab to the previous one, wrapping from the last control to the
      first and from the first to the last. */
  lemma SwitchFocusMovesOne(f: seq<bool>, fwd: bool, i: nat)
    requires |f| == ControlCount && FocusedOnly(f, i)
    ensures FocusedOnly(SwitchFocusStep(f, fwd),
      if fwd then (if i == ControlCount - 1 then 0 else i + 1)
      else (if i == 0 then ControlCount - 1 else i - 1))
  {
    var j := FirstFocused(f);
    assert f[i];
    if j < |f| {
      assert f[j];
    }
  }

  /** Whatever else has focus, the first focused control loses it, its
      neighbour gains it, and every other control keeps its own. */
  lemma SwitchFocusFromFirst(f: seq<bool>, fwd: bool)
    requires |f| == ControlCount && FirstFocused(f) < |f|
    ensures var i := FirstFocused(f);
      var j := Neighbour(i, |f|, fwd);
      var r := SwitchFocusStep(f, fwd);
      |r| == |f| && !r[i] && r[j]
      && forall k :: 0 <= k < |f| && k != i && k != j ==> r[k] == f[k]
  {
  }

  /** With no control focused, tab focuses the menu button and shift-tab
      the filename box. */
  lemma SwitchFocusFromNone(f: seq<bool>, fwd: bool)
    requires |f| == ControlCount && forall k :: 0 <= k < |f| ==> !f[k]
    ensures FocusedOnly(SwitchFocusStep(f, fwd), if fwd then MenuButton else FilenameBox)
  {
  }

  /** Shift-tab undoes tab, and tab undoes shift-tab, when one control is
      focused. */
  lemma SwitchFocusUndo(f: seq<bool>, fwd: bool, i: nat)
    requires |f| == ControlCount && FocusedOnly(f, i)
    ensures SwitchFocusStep(SwitchFocusStep(f, fwd), !fwd) == f
  {
    SwitchFocusMovesOne(f, fwd, i);
    var j := if fwd then (if i == ControlCount - 1 then 0 else i + 1)
             else (if i == 0 then ControlCount - 1 else i - 1);
    SwitchFocusMovesOne(SwitchFocusStep(f, fwd), !fwd, j);
  }

  class FileView<P(==)> {
    var paths: seq<P>
    var cur: nat
    /** `has_focus()` of each control of `m_controls`. */
    var focus: seq<bool>

    function View(): History<P>
      reads this
    {
      History(paths, cur)
    }

    predicate Valid()
      reads this
    {
      Consistent(View()) && |focus| == ControlCount
    }

    /** `FileView(vm, mode)`: an empty history, then the starting directory
        opened; in save mode the filename box has focus. */
    constructor (start: P, saveMode: bool)
      ensures Valid()
      ensures View() == History([start], 0)
      ensures forall k :: 0 <= k < |focus| ==> (focus[k] <==> saveMode && k == FilenameBox)
    {
      paths, cur := [], 0;
      focus := seq(ControlCount, k => saveMode && k == FilenameBox);
      new;
      OpenPath(start);
    }

    /** `open_path(p)`. */
    method OpenPath(p: P)
      requires Valid()
      modifies this
      ensures Valid()
      ensures View() == OpenPathStep(old(View()), p)
      ensures focus == old(focus)
    {
      if cur == |paths| {
        paths := paths + [p];
        cur := |paths| - 1;
      } else if p != paths[cur] {
        paths := paths[..cur + 1];
        paths := paths + [p];
        cur := |paths| - 1;
      }
    }

    /** `back()`. */
    method Back()
      requires Valid()
      modifies this
      ensures Valid()
      ensures View() == BackStep(old(View()))
      ensures focus == old(focus)
    {
      if cur != 0 {
        cur := cur - 1;
      }
    }

    /** `forward()`. */
    method Forward()
      requires Valid()
      modifies this
      ensures Valid()
      ensures View() == ForwardStep(old(View()))
      ensures focus == old(focus)
    {
      if cur != |paths| && cur + 1 != |paths| {
        cur := cur + 1;
      }
    }

    /** `up()`. */
    method Up(parent: P -> P, hasParent: P -> bool)
      requires Valid()
      modifies this
      ensures Valid()
      ensures View() == UpStep(old(View()), parent, hasParent)
      ensures focus == old(focus)
    {
      if cur != |paths| && hasParent(paths[cur]) {
        OpenPath(parent(paths[cur]));
      }
    }

    /** `open_subdir(index)`: `elements` counts the elements of a path, as
        `path_subdir_count()` does for the current one. */
    method OpenSubdir(index: int, parent: P -> P, elements: P -> nat)
      requires Valid()
      modifies this
      ensures Valid()
      ensures View() == SubdirStep(old(View()), parent, elements, index)
      ensures focus == old(focus)
    {
      if cur != |paths| {
        var count := elements(paths[cur]);
        var p := paths[cur];
        var i := index;
        while i + 1 < count
          invariant index <= i
          invariant i + 1 < count ==> i - index < SubdirLevels(index, count)
          invariant i + 1 >= count ==> i - index == SubdirLevels(index, count)
          invariant p == Ancestor(parent, paths[cur], i - index)
        {
          p := parent(p);
          i := i + 1;
        }
        OpenPath(p);
      }
    }

    /** `switch_focus(fwd)`. */
    method SwitchFocus(fwd: bool)
      requires Valid()
      modifies this
      ensures Valid()
      ensures focus == SwitchFocusStep(old(focus), fwd)
      ensures View() == old(View())
    {
      var focusChanged := false;
      var i := 0;
      while i < |focus|
        invariant 0 <= i <= |focus|
        invariant forall k :: 0 <= k < i ==> !focus[k]
        invariant focus == old(focus)
      {
        if focus[i] {
          focus := focus[i := false];
          var next := if i == 0 && !fwd then |focus| - 1
                      else if i == |focus| - 1 && fwd then 0
                      else if fwd then i + 1 else i - 1;
          focus := focus[next := true];
          focusChanged := true;
          break;
        }
        i := i + 1;
      }
      if !focusChanged {
        if fwd {
          focus := focus[MenuButton := true];
        } else {
          focus := focus[FilenameBox := true];
        }
      }
    }

    /** `clear_focus()`: no control has focus. */
    method ClearFocus()
      requires Valid()
      modifies this
      ensures Valid()
      ensures forall k :: 0 <= k < |focus| ==> !focus[k]
      ensures View() == old(View())
    {
      var i := 0;
      while i < |focus|
        invariant 0 <= i <= |focus| == ControlCount
        invariant forall k :: 0 <= k < i ==> !focus[k]
        invariant View() == old(View())
      {
        focus := focus[i := false];
        i := i + 1;
      }
    }
  }
}
