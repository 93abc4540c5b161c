/** The desktop of `src/components/desktop.rs`: the table of open windows, keyed by window id,
    with the active window, the id counter, the context menu and the background colour. The
    message handlers update these fields in place; each is proved to produce the new table and
    to keep the focus discipline: only the active window is focused, and the active window, when
    it is open, is focused. */
module Desktop {
  import opened Text
  import opened FsModel

  /** `WindowContentType`: the application a window shows. */
  datatype Content =
    | Empty
    | TerminalApp
    | FileExplorer
    | TextEditor(editorPath: Option<string>)
    | Clock
    | ImageViewer(imagePath: string)
    | FileCompressorApp

  /** `WindowState`: geometry in pixels, flags, and the content. */
  datatype WindowState = WindowState(
    id: string, title: string, x: int, y: int, width: int, height: int,
    minimized: bool, focused: bool, content: Content)

  const DefaultBackground: string := "#2a6496"
  const WindowWidth: int := 600
  const WindowHeight: int := 400

  /** The id of the `n`th window created. */
  function WindowId(n: nat): string {
    "window-" + NatToString(n)
  }

  /** Windows created at different counter values get different ids. */
  lemma WindowIdInjective(a: nat, b: nat)
    requires WindowId(a) == WindowId(b)
    ensures a == b
  {
    assert NatToString(a) == WindowId(a)[7..] == WindowId(b)[7..] == NatToString(b);
    NatToStringInjective(a, b);
  }

  /** The cascade offset of a window created while `n` windows are open: both coordinates are
      50 plus 30 for each step of a cycle of five. */
  function Cascade(n: nat): (r: int)
    ensures 50 <= r <= 170 && (r - 50) % 30 == 0
  {
    50 + (n % 5) * 30
  }

  /** The cascade repeats every five windows, and within a cycle every position differs. */
  lemma CascadeCycle(n: nat, m: nat)
    ensures Cascade(n + 5) == Cascade(n)
    ensures Cascade(n) == Cascade(m) <==> n % 5 == m % 5
  {
  }

  /** The content `OpenFile` opens a file in: an image viewer for type "image", a text editor
      for "text" and for every other type. */
  function OpenedContent(path: string, fileType: string): (c: Content)
    ensures fileType == "image" ==> c == ImageViewer(path)
    ensures fileType != "image" ==> c == TextEditor(Some(path))
  {
    if fileType == "text" then TextEditor(Some(path))
    else if fileType == "image" then ImageViewer(path)
    else TextEditor(Some(path))
  }

  /** The title `OpenFile` gives the window: the file's name (the whole path if it has none),
      " - ", and "Text Editor" for type "text", "Image Viewer" for any other type. */
  function OpenedTitle(path: string, fileType: string): string {
    var name := match FileName(path) case Some(n) => n case None => path;
    name + " - " + (if fileType == "text" then "Text Editor" else "Image Viewer")
  }

  /** The title names the application only for "text" and "image": any other type opens a text
      editor whose title says "Image Viewer". */
  lemma OpenedTitleMismatch(path: string, fileType: string)
    requires fileType != "text" && fileType != "image"
    ensures OpenedContent(path, fileType).TextEditor?
    ensures EndsWith(OpenedTitle(path, fileType), "Image Viewer")
  {
    var name := match FileName(path) case Some(n) => n case None => path;
    EndsWithAppend(name + " - ", "Image Viewer");
  }

  /** The windows with the focus flag set exactly on the one `target` names, if open. */
  function Refocused(ws: map<string, WindowState>, target: Option<string>): map<string, WindowState> {
    map k | k in ws :: ws[k].(focused := target == Some(k))
  }

  /** Every window is stored under its own id. */
  ghost predicate KeysMatch(ws: map<string, WindowState>) {
    forall k :: k in ws ==> ws[k].id == k
  }

  /** Every open window's id was produced by a counter value below `counter`. */
  ghost predicate Issued(ws: map<string, WindowState>, counter: nat) {
    forall k :: k in ws ==> exists n: nat :: n < counter && k == WindowId(n)
  }

  /** Only the active window is focused, and the active window, if open, is focused. */
  ghost predicate FocusFollowsActive(ws: map<string, WindowState>, active: Option<string>) {
    (forall k :: k in ws && ws[k].focused ==> active == Some(k)) &&
    (active.Some? && active.value in ws ==> ws[active.value].focused)
  }

  /** The id the counter produces next is not that of an open window. */
  lemma NextIdFresh(ws: map<string, WindowState>, counter: nat)
    requires Issued(ws, counter)
    ensures WindowId(counter) !in ws
  {
    if WindowId(counter) in ws {
      var n: nat :| n < counter && WindowId(counter) == WindowId(n);
      WindowIdInjective(n, counter);
    }
  }

  lemma IssuedSubset(ws: map<string, WindowState>, ws2: map<string, WindowState>, counter: nat)
    requires Issued(ws, counter) && ws2.Keys <= ws.Keys
    ensures Issued(ws2, counter)
  {
    forall k | k in ws2 ensures exists n: nat :: n < counter && k == WindowId(n) {
      assert k in ws;
    }
  }

  /** Adding the window with the next id, and stepping the counter, keeps every id issued. */
  lemma IssuedAdd(ws: map<string, WindowState>, counter: nat, w: WindowState)
    requires Issued(ws, counter)
    ensures Issued(ws[WindowId(counter) := w], counter + 1)
  {
    var ws2 := ws[WindowId(counter) := w];
    forall k | k in ws2 ensures exists n: nat :: n < counter + 1 && k == WindowId(n) {
      if k == WindowId(counter) {
        assert k == WindowId(counter);
      } else {
        assert k in ws;
        var n: nat :| n < counter && k == WindowId(n);
        assert n < counter + 1;
      }
    }
  }

  /** Focusing one id, and making it active, follows the focus discipline. */
  lemma RefocusedFollows(ws: map<string, WindowState>, id: string)
    ensures FocusFollowsActive(Refocused(ws, Some(id)), Some(id))
  {
  }

  /** A new focused window beside windows that were all unfocused, made active, follows the
      focus discipline. */
  lemma CreatedFollows(ws: map<string, WindowState>, id: string, w: WindowState)
    requires w.focused
    ensures FocusFollowsActive(Refocused(ws, None)[id := w], Some(id))
  {
  }

  /** Closing an inactive window keeps the focus discipline. */
  lemma CloseInactiveFollows(ws: map<string, WindowState>, id: string, active: Option<string>)
    requires FocusFollowsActive(ws, active) && active != Some(id)
    ensures FocusFollowsActive(ws - {id}, active)
  {
  }

  /** After the active window closes, focusing a remaining window and making it active keeps
      the focus discipline: no other remaining window was focused. */
  lemma CloseActiveFollows(ws: map<string, WindowState>, id: string, next: string)
    requires FocusFollowsActive(ws, Some(id)) && next in ws && next != id
    ensures var rest := ws - {id}; FocusFollowsActive(rest[next := rest[next].(focused := true)], Some(next))
  {
  }

  /** What the desktop keeps: every open window stored under its own issued id, and the focus
      discipline. */
  ghost predicate Consistent(ws: map<string, WindowState>, active: Option<string>, counter: nat) {
    KeysMatch(ws) && Issued(ws, counter) && FocusFollowsActive(ws, active)
  }

  /** Closing a window that is not the active one keeps the desktop consistent. */
  lemma CloseInactiveConsistent(ws: map<string, WindowState>, id: string, active: Option<string>, counter: nat)
    requires Consistent(ws, active, counter) && active != Some(id)
    ensures Consistent(ws - {id}, active, counter)
  {
    IssuedSubset(ws, ws - {id}, counter);
    CloseInactiveFollows(ws, id, active);
  }

  /** Closing the active window and focusing another remaining one keeps the desktop
      consistent. */
  lemma CloseActiveConsistent(ws: map<string, WindowState>, id: string, next: string, counter: nat)
    requires Consistent(ws, Some(id), counter) && next in ws && next != id
    ensures var rest := ws - {id}; Consistent(rest[next := rest[next].(focused := true)], Some(next), counter)
  {
    var rest := ws - {id};
    IssuedSubset(ws, rest[next := rest[next].(focused := true)], counter);
    CloseActiveFollows(ws, id, next);
  }

  /** Focusing any id, after changing only the minimised flag of the window it names, keeps the
      desktop consistent. */
  lemma RefocusConsistent(ws: map<string, WindowState>, ws2: map<string, WindowState>, active: Option<string>, id: string, counter: nat)
    requires Consistent(ws, active, counter) && ws2.Keys == ws.Keys
    requires forall k :: k in ws2 ==> ws2[k].id == ws[k].id
    ensures Consistent(Refocused(ws2, Some(id)), Some(id), counter)
  {
    IssuedSubset(ws, Refocused(ws2, Some(id)), counter);
    RefocusedFollows(ws2, id);
  }

  /** The focus loops of `update`: a pass over every open window that sets its focus flag
      exactly when `target` names it. */
  method Refocus(ws: map<string, WindowState>, target: Option<string>) returns (r: map<string, WindowState>)
    ensures r == Refocused(ws, target)
  {
    r := ws;
    var todo := ws.Keys;
    while todo != {}
      invariant todo <= ws.Keys && r.Keys == ws.Keys
      invariant forall k :: k in r ==> r[k] == if k in todo then ws[k] else ws[k].(focused := target == Some(k))
      decreases todo
    {
      var k :| k in todo;
      r := r[k := r[k].(focused := target == Some(k))];
      todo := todo - {k};
    }
  }

  class Desktop {
    var windows: map<string, WindowState>
    var activeWindowId: Option<string>
    var windowCounter: nat
    var contextMenu: Option<(int, int)>
    var backgroundColor: string

    /** Every open window is stored under its own id, which an earlier value of the counter
        produced; a focused window is the active one, and the active window, if open, is
        focused. */
    ghost predicate Valid()
      reads this
    {
      Consistent(windows, activeWindowId, windowCounter)
    }

    /** `create`, without the file system it opens. */
    constructor ()
      ensures Valid()
      ensures windows == map[] && activeWindowId == None && windowCounter == 0 &&
        contextMenu == None && backgroundColor == DefaultBackground
    {
      windows := map[];
      activeWindowId := None;
      windowCounter := 0;
      contextMenu := None;
      backgroundColor := DefaultBackground;
    }

    /** `CreateWindow`: opens a 600 by 400 window, focused and not minimised, under the fresh
        id `"window-" + counter`, at the cascade position for the number of open windows, and
        makes it the only focused window and the active one. */
    method CreateWindow(title: string, content: Content)
      requires Valid()
      modifies this
      ensures Valid()
      ensures var id := WindowId(old(windowCounter));
        var at := Cascade(|old(windows)|);
        id !in old(windows) &&
        windows == Refocused(old(windows), None)[
          id := WindowState(id, title, at, at, WindowWidth, WindowHeight, false, true, content)] &&
        activeWindowId == Some(id) && windowCounter == old(windowCounter) + 1
      ensures forall k :: k in windows ==> (windows[k].focused <==> activeWindowId == Some(k))
      ensures contextMenu == old(contextMenu) && backgroundColor == old(backgroundColor)
    {
      NextIdFresh(windows, windowCounter);
      var id := WindowId(windowCounter);
      var at := Cascade(|windows|);
      var window := WindowState(id, title, at, at, WindowWidth, WindowHeight, false, true, content);
      var others := Refocus(windows, None);
      IssuedSubset(windows, others, windowCounter);
      IssuedAdd(others, windowCounter, window);
      CreatedFollows(windows, id, window);
      windowCounter := windowCounter + 1;
      windows := others[id := window];
      activeWindowId := Some(id);
    }

    /** `CloseWindow`: removes the window. When it was the active one, some remaining window
        (whichever the map yields first) becomes active and focused, or none if none remain. */
    method CloseWindow(id: string)
      requires Valid()
      modifies this
      ensures Valid()
      ensures windows.Keys == old(windows).Keys - {id}
      ensures old(activeWindowId) != Some(id) ==>
        windows == old(windows) - {id} && activeWindowId == old(activeWindowId)
      ensures old(activeWindowId) == Some(id) && windows == map[] ==> activeWindowId == None
      ensures old(activeWindowId) == Some(id) && windows != map[] ==>
        activeWindowId.Some? && activeWindowId.value in windows &&
        windows == (old(windows) - {id})[activeWindowId.value := old(windows)[activeWindowId.value].(focused := true)]
      ensures windowCounter == old(windowCounter) && contextMenu == old(contextMenu) &&
        backgroundColor == old(backgroundColor)
    {
      ghost var before := windows;
      if activeWindowId != Some(id) {
        CloseInactiveConsistent(windows, id, activeWindowId, windowCounter);
        windows := windows - {id};
      } else {
        windows := windows - {id};
        if windows == map[] {
          activeWindowId := None;
        } else {
          var next :| next in windows;
          CloseActiveConsistent(before, id, next, windowCounter);
          activeWindowId := Some(next);
          windows := windows[next := windows[next].(focused := true)];
        }
      }
    }

    /** `MinimizeWindow`: sets the window's minimised flag, if it is open; nothing else. */
    method MinimizeWindow(id: string)
      requires Valid()
      modifies this
      ensures Valid()
      ensures windows == if id in old(windows) then old(windows)[id := old(windows)[id].(minimized := true)] else old(windows)
      ensures activeWindowId == old(activeWindowId) && windowCounter == old(windowCounter) &&
        contextMenu == old(contextMenu) && backgroundColor == old(backgroundColor)
    {
      if id in windows {
        IssuedSubset(windows, windows[id := windows[id].(minimized := true)], windowCounter);
        windows := windows[id := windows[id].(minimized := true)];
      }
    }

    /** `RestoreWindow`: un-minimises the window, if open, makes it the only focused window,
        and makes its id the active one even if it is not open. */
    method RestoreWindow(id: string)
      requires Valid()
      modifies this
      ensures Valid()
      ensures windows == Refocused(if id in old(windows) then old(windows)[id := old(windows)[id].(minimized := false)] else old(windows), Some(id))
      ensures activeWindowId == Some(id)
      ensures windowCounter == old(windowCounter) && contextMenu == old(contextMenu) &&
        backgroundColor == old(backgroundColor)
    {
      var ws := windows;
      if id in windows {
        ws := windows[id := windows[id].(minimized := false, focused := true)];
        assert Refocused(ws, Some(id)) == Refocused(windows[id := windows[id].(minimized := false)], Some(id));
      }
      RefocusConsistent(windows, ws, activeWindowId, id, windowCounter);
      var r := Refocus(ws, Some(id));
      windows := r;
      activeWindowId := Some(id);
    }

    /** `FocusWindow`: makes the window the only focused one and its id the active one, even if
        it is not open; minimised flags are kept. */
    method FocusWindow(id: string)
      requires Valid()
      modifies this
      ensures Valid()
      ensures windows == Refocused(old(windows), Some(id))
      ensures activeWindowId == Some(id)
      ensures windowCounter == old(windowCounter) && contextMenu == old(contextMenu) &&
        backgroundColor == old(backgroundColor)
    {
      RefocusConsistent(windows, windows, activeWindowId, id, windowCounter);
      var r := Refocus(windows, Some(id));
      windows := r;
      activeWindowId := Some(id);
    }

    /** `ContextMenu`: a right click opens the menu at the pointer, or closes an open one. */
    method ContextMenu(x: int, y: int)
      requires Valid()
      modifies this
      ensures Valid()
      ensures contextMenu == if old(contextMenu).Some? then None else Some((x, y))
      ensures windows == old(windows) && activeWindowId == old(activeWindowId) &&
        windowCounter == old(windowCounter) && backgroundColor == old(backgroundColor)
    {
      if contextMenu.Some? {
        contextMenu := None;
      } else {
        contextMenu := Some((x, y));
      }
    }

    /** `OpenFile`: opens a window for the file, titled and typed by the file type, exactly as
        `CreateWindow` does: the other windows lose focus and the new one is active. */
    method OpenFile(path: string, fileType: string)
      requires Valid()
      modifies this
      ensures Valid()
      ensures var id := WindowId(old(windowCounter));
        var at := Cascade(|old(windows)|);
        id !in old(windows) && activeWindowId == Some(id) &&
        windows == Refocused(old(windows), None)[
          id := WindowState(id, OpenedTitle(path, fileType), at, at, WindowWidth, WindowHeight, false, true,
                            OpenedContent(path, fileType))]
      ensures forall k :: k in windows ==> (windows[k].focused <==> activeWindowId == Some(k))
      ensures windowCounter == old(windowCounter) + 1 && contextMenu == old(contextMenu) &&
        backgroundColor == old(backgroundColor)
    {
      CreateWindow(OpenedTitle(path, fileType), OpenedContent(path, fileType));
    }

    /** `ChangeBackgroundColor`. */
    method ChangeBackgroundColor(color: string)
      requires Valid()
      modifies this
      ensures Valid()
      ensures backgroundColor == color
      ensures windows == old(windows) && activeWindowId == old(activeWindowId) &&
        windowCounter == old(windowCounter) && contextMenu == old(contextMenu)
    {
      backgroundColor := color;
    }
  }
}
