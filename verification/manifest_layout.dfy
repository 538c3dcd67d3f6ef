/** The layout checks of the activity-manager host-side test that launches
    activities whose manifest declares a gravity and a default size, then reads
    the window manager's state back and compares the window's containing frame
    with the expected size and anchoring.

    Java's `float` arithmetic is replaced by exact integer arithmetic (see
    `DpToPx` and `ExpectedSize`); `Assert.assertEquals` becomes a `Check` value
    naming the first failing assertion with its expected and actual values. */
module ManifestLayout {
  import opened Wrappers

  /** Clone of the platform's default density (DisplayMetrics.DENSITY_DEFAULT). */
  const DisplayDensityDefault: int := 160

  const DefaultWidthDp: int := 160
  const DefaultHeightDp: int := 160
  /** The default fraction 0.25f is exactly one quarter in binary floating point. */
  const DefaultFractionDenominator: int := 4
  const MinimalSizeDp: int := 80

  /** java.awt.Rectangle, as the window manager's dump reports it. */
  datatype Rect = Rect(x: int, y: int, width: int, height: int)

  datatype VerticalGravity = Top | CenterVertical | Bottom
  datatype HorizontalGravity = Left | CenterHorizontal | Right

  datatype Size = Size(width: int, height: int)

  /** The outcome of one group of `Assert.assertEquals` calls: the first one
      that fails, with its message, expected and actual value. */
  datatype Check = Pass | Mismatch(message: string, expected: int, actual: int)

  // ---------------------------------------------------------------------------
  // Unit conversion

  /** Java's `(int)` cast of the exact quotient `a / b`: truncation toward zero. */
  function TruncDiv(a: int, b: int): (q: int)
    requires 0 < b
    ensures 0 <= a ==> 0 <= q && q * b <= a < q * b + b
    ensures a < 0 ==> q <= 0 && q * b - b < a <= q * b
  {
    if 0 <= a then a / b else -((-a) / b)
  }

  /** `(int) (dp * densityDpi / 160 + 0.5f)`: the exact value
      `(dp * densityDpi + 80) / 160`, truncated toward zero. For a non-negative
      product this is the nearest integer to `dp * densityDpi / 160`, with a
      half rounded up. */
  function DpToPx(dp: int, densityDpi: int): (px: int)
    ensures 0 <= dp * densityDpi ==>
              0 <= px && px * 160 - 80 <= dp * densityDpi < px * 160 + 80
  {
    TruncDiv(dp * densityDpi + DisplayDensityDefault / 2, DisplayDensityDefault)
  }

  lemma DpToPxExamples()
    ensures DpToPx(160, 160) == 160
    ensures DpToPx(80, 160) == 80
    ensures DpToPx(80, 240) == 120
    ensures DpToPx(1, 80) == 1
    ensures DpToPx(1, 79) == 0
    ensures DpToPx(160, 480) == 480
  {
  }

  /** The rounding is exact: any value within half a pixel below, or less than
      half a pixel above, a whole pixel count converts to that count. */
  lemma DpToPxIsNearest(dp: int, densityDpi: int, px: int)
    requires 0 <= px
    requires px * 160 - 80 <= dp * densityDpi < px * 160 + 80
    ensures DpToPx(dp, densityDpi) == px
  {
    var r := DpToPx(dp, densityDpi);
    assert r * 160 - 80 <= dp * densityDpi < r * 160 + 80;
  }

  /** The size the window is expected to take: a quarter of the display's app
      rectangle in fraction mode, otherwise 160dp x 160dp converted to pixels. */
  function ExpectedSize(fraction: bool, densityDpi: int, appRect: Rect): (s: Size)
    ensures fraction && 0 <= appRect.width ==>
              0 <= s.width && 4 * s.width <= appRect.width < 4 * s.width + 4
    ensures fraction && 0 <= appRect.height ==>
              0 <= s.height && 4 * s.height <= appRect.height < 4 * s.height + 4
    ensures !fraction ==> s.width == s.height == DpToPx(160, densityDpi)
  {
    if fraction then
      Size(TruncDiv(appRect.width, DefaultFractionDenominator),
           TruncDiv(appRect.height, DefaultFractionDenominator))
    else
      Size(DpToPx(DefaultWidthDp, densityDpi), DpToPx(DefaultHeightDp, densityDpi))
  }

  lemma ExpectedSizeExamples()
    ensures ExpectedSize(true, 160, Rect(0, 0, 1000, 1000)) == Size(250, 250)
    ensures ExpectedSize(true, 160, Rect(0, 0, 1003, 1001)) == Size(250, 250)
    ensures ExpectedSize(false, 160, Rect(0, 0, 1000, 1000)) == Size(160, 160)
    ensures ExpectedSize(false, 320, Rect(0, 0, 1000, 1000)) == Size(320, 320)
  {
  }

  // ---------------------------------------------------------------------------
  // Frame verification

  /** The vertical anchoring that a gravity demands of a frame inside its parent. */
  predicate VerticallyAnchored(g: VerticalGravity, frame: Rect, parent: Rect) {
    match g
    case Top => frame.y == parent.y
    case Bottom => frame.y + frame.height == parent.y + parent.height
    case CenterVertical => true
  }

  predicate HorizontallyAnchored(g: HorizontalGravity, frame: Rect, parent: Rect) {
    match g
    case Left => frame.x == parent.x
    case Right => frame.x + frame.width == parent.x + parent.width
    case CenterHorizontal => true
  }

  /** Width, then height, then the vertical anchor, then the horizontal anchor;
      the first assertion that fails is reported. */
  function VerifyFrameSizeAndPosition(
    v: VerticalGravity, h: HorizontalGravity, expectedWidth: int, expectedHeight: int,
    frame: Rect, parent: Rect): (c: Check)
    ensures c == Pass <==>
              && frame.width == expectedWidth && frame.height == expectedHeight
              && VerticallyAnchored(v, frame, parent)
              && HorizontallyAnchored(h, frame, parent)
    ensures c.Mismatch? ==> c.expected != c.actual
    ensures frame.width != expectedWidth ==>
              c == Mismatch("Width is incorrect", expectedWidth, frame.width)
  {
    if frame.width != expectedWidth then
      Mismatch("Width is incorrect", expectedWidth, frame.width)
    else if frame.height != expectedHeight then
      Mismatch("Height is incorrect", expectedHeight, frame.height)
    else if v == Top && frame.y != parent.y then
      Mismatch("Should be on the top", parent.y, frame.y)
    else if v == Bottom && frame.y + frame.height != parent.y + parent.height then
      Mismatch("Should be on the bottom", parent.y + parent.height, frame.y + frame.height)
    else if h == Left && frame.x != parent.x then
      Mismatch("Should be on the left", parent.x, frame.x)
    else if h == Right && frame.x + frame.width != parent.x + parent.width then
      Mismatch("Should be on the right", parent.x + parent.width, frame.x + frame.width)
    else
      Pass
  }

  /** Top/left gravity pins the frame completely: it must be the expected size
      at the parent's top-left corner. */
  lemma TopLeftFrameIsDetermined(ew: int, eh: int, frame: Rect, parent: Rect)
    ensures VerifyFrameSizeAndPosition(Top, Left, ew, eh, frame, parent) == Pass
            <==> frame == Rect(parent.x, parent.y, ew, eh)
  {
  }

  /** Bottom/right gravity pins the frame to the parent's bottom-right corner. */
  lemma BottomRightFrameIsDetermined(ew: int, eh: int, frame: Rect, parent: Rect)
    ensures VerifyFrameSizeAndPosition(Bottom, Right, ew, eh, frame, parent) == Pass
            <==> frame == Rect(parent.x + parent.width - ew, parent.y + parent.height - eh, ew, eh)
  {
  }

  /** Centre gravity is not checked: moving the frame along a centred axis never
      changes the verdict. */
  lemma CenterImposesNoConstraint(
    v: VerticalGravity, h: HorizontalGravity, ew: int, eh: int, frame: Rect, parent: Rect,
    x': int, y': int)
    requires v == CenterVertical && h == CenterHorizontal
    ensures VerifyFrameSizeAndPosition(v, h, ew, eh, frame, parent)
            == VerifyFrameSizeAndPosition(v, h, ew, eh, frame.(x := x', y := y'), parent)
  {
  }

  /** The vertical check never looks at x and the horizontal one never at y: a
      frame of the right size passes exactly when each axis is anchored. */
  lemma AxesAreIndependent(
    v: VerticalGravity, h: HorizontalGravity, frame: Rect, parent: Rect)
    ensures VerifyFrameSizeAndPosition(v, h, frame.width, frame.height, frame, parent) == Pass
            <==> VerifyFrameSizeAndPosition(v, CenterHorizontal, frame.width, frame.height, frame, parent) == Pass
                 && VerifyFrameSizeAndPosition(CenterVertical, h, frame.width, frame.height, frame, parent) == Pass
  {
  }

  /** The minimal-size rule: the shorter side of the frame must be exactly the
      80dp floor converted to pixels. */
  function VerifyMinimalSize(densityDpi: int, frame: Rect): (c: Check)
    ensures c == Pass <==>
              (frame.width <= frame.height ==> frame.width == DpToPx(80, densityDpi))
              && (frame.height <= frame.width ==> frame.height == DpToPx(80, densityDpi))
    ensures c.Mismatch? ==> c.expected == DpToPx(80, densityDpi) && c.expected != c.actual
  {
    var minimalSize := DpToPx(MinimalSizeDp, densityDpi);
    var actualSize := if frame.width <= frame.height then frame.width else frame.height;
    if minimalSize == actualSize then Pass
    else Mismatch("Minimum size is incorrect", minimalSize, actualSize)
  }

  /** At the default density the floor is 80px: a shorter side below it fails. */
  lemma MinimalSizeAtDefaultDensity(frame: Rect)
    requires frame.width < 80 || frame.height < 80
    ensures VerifyMinimalSize(160, frame).Mismatch?
  {
    assert DpToPx(80, 160) == 80;
  }

  // ---------------------------------------------------------------------------
  // Window selection

  /** One window of the window manager's state. */
  datatype WindowState = WindowState(name: string, displayId: int, containingFrame: Rect)

  datatype Display = Display(id: int, densityDpi: int, appRect: Rect)

  /** The window manager's state as parsed from the device: windows in dump
      order, displays by id, and the name of the focused window. */
  datatype WmState = WmState(windows: seq<WindowState>, displays: map<int, Display>, focusedWindow: string)

  datatype Selection = Selection(window: WindowState, display: Display)

  /** The windows whose name is `name`, in order. */
  function MatchingWindows(windows: seq<WindowState>, name: string): (r: seq<WindowState>)
    ensures forall i :: 0 <= i < |r| ==> r[i].name == name && r[i] in windows
    ensures forall j :: 0 <= j < |windows| && windows[j].name == name ==> windows[j] in r
    ensures |r| <= |windows|
  {
    if |windows| == 0 then []
    else (if windows[0].name == name then [windows[0]] else []) + MatchingWindows(windows[1..], name)
  }

  /** How many windows carry the name. */
  function CountNamed(windows: seq<WindowState>, name: string): nat
    decreases |windows|
  {
    if |windows| == 0 then 0
    else (if windows[|windows| - 1].name == name then 1 else 0) + CountNamed(windows[..|windows| - 1], name)
  }

  lemma {:induction false} CountNamedPrepend(w: WindowState, windows: seq<WindowState>, name: string)
    ensures CountNamed([w] + windows, name) == (if w.name == name then 1 else 0) + CountNamed(windows, name)
    decreases |windows|
  {
    if |windows| > 0 {
      assert ([w] + windows)[..|windows|] == [w] + windows[..|windows| - 1];
      CountNamedPrepend(w, windows[..|windows| - 1], name);
    }
  }

  lemma {:induction false} MatchingWindowsCount(windows: seq<WindowState>, name: string)
    ensures |MatchingWindows(windows, name)| == CountNamed(windows, name)
    decreases |windows|
  {
    if |windows| > 0 {
      MatchingWindowsCount(windows[1..], name);
      assert windows == [windows[0]] + windows[1..];
      CountNamedPrepend(windows[0], windows[1..], name);
    }
  }

  lemma CountNamedPrefix(windows: seq<WindowState>, name: string, j: int)
    requires 0 < j <= |windows|
    ensures CountNamed(windows[..j], name)
            == (if windows[0].name == name then 1 else 0) + CountNamed(windows[1..][..j - 1], name)
  {
    assert windows[..j] == [windows[0]] + windows[1..][..j - 1];
    CountNamedPrepend(windows[0], windows[1..][..j - 1], name);
  }

  /** The window at index `j`, when it carries the name, is the match that
      comes after the matches among the windows before it. */
  lemma {:induction false} MatchingWindowsAt(windows: seq<WindowState>, name: string, j: int)
    requires 0 <= j < |windows| && windows[j].name == name
    ensures CountNamed(windows[..j], name) < |MatchingWindows(windows, name)|
    ensures MatchingWindows(windows, name)[CountNamed(windows[..j], name)] == windows[j]
    decreases j
  {
    if j == 0 {
      assert windows[..0] == [];
    } else {
      var rest := windows[1..];
      var head := if windows[0].name == name then [windows[0]] else [];
      var k := CountNamed(rest[..j - 1], name);
      MatchingWindowsAt(rest, name, j - 1);
      CountNamedPrefix(windows, name, j);
      assert MatchingWindows(windows, name) == head + MatchingWindows(rest, name);
      assert (head + MatchingWindows(rest, name))[|head| + k] == MatchingWindows(rest, name)[k];
      assert rest[j - 1] == windows[j];
    }
  }

  /** The matches are all windows of that name and nothing else, in dump
      order: there are as many as windows carrying the name, and each such
      window sits after the matches among the windows before it. */
  lemma MatchingWindowsInOrder(windows: seq<WindowState>, name: string)
    ensures |MatchingWindows(windows, name)| == CountNamed(windows, name)
    ensures forall j :: 0 <= j < |windows| && windows[j].name == name ==>
              CountNamed(windows[..j], name) < |MatchingWindows(windows, name)|
              && MatchingWindows(windows, name)[CountNamed(windows[..j], name)] == windows[j]
  {
    MatchingWindowsCount(windows, name);
    forall j | 0 <= j < |windows| && windows[j].name == name
      ensures CountNamed(windows[..j], name) < |MatchingWindows(windows, name)|
      ensures MatchingWindows(windows, name)[CountNamed(windows[..j], name)] == windows[j]
    {
      MatchingWindowsAt(windows, name, j);
    }
  }

  /** Exactly one window, the one at index `i`, is named `name`. */
  predicate UniqueMatchAt(windows: seq<WindowState>, name: string, i: int) {
    && 0 <= i < |windows|
    && windows[i].name == name
    && forall j :: 0 <= j < |windows| && windows[j].name == name ==> j == i
  }

  /** A single match is the only window carrying the name. */
  lemma {:induction false} SingleMatchIsUnique(windows: seq<WindowState>, name: string)
    ensures |MatchingWindows(windows, name)| == 1 ==>
              exists i :: UniqueMatchAt(windows, name, i) && windows[i] == MatchingWindows(windows, name)[0]
  {
    if |windows| > 0 && |MatchingWindows(windows, name)| == 1 {
      var rest := windows[1..];
      if windows[0].name == name {
        MatchingWindowsEmpty(rest, name);
        assert MatchingWindows(rest, name) == [];
        forall j | 0 < j < |windows| ensures windows[j].name != name {
          assert rest[j - 1] == windows[j];
        }
        assert UniqueMatchAt(windows, name, 0);
      } else {
        SingleMatchIsUnique(rest, name);
        var k :| UniqueMatchAt(rest, name, k) && rest[k] == MatchingWindows(rest, name)[0];
        assert UniqueMatchAt(windows, name, k + 1);
      }
    }
  }

  /** The only window carrying the name is the whole match list. */
  lemma {:induction false} UniqueMatchIsWhole(windows: seq<WindowState>, name: string, i: int)
    requires UniqueMatchAt(windows, name, i)
    ensures MatchingWindows(windows, name) == [windows[i]]
  {
    var rest := windows[1..];
    if i == 0 {
      MatchingWindowsEmpty(rest, name);
      assert forall j :: 0 <= j < |rest| ==> rest[j].name != name by {
        forall j | 0 <= j < |rest| ensures rest[j].name != name {
          assert windows[j + 1] == rest[j];
        }
      }
    } else {
      assert UniqueMatchAt(rest, name, i - 1) by {
        forall j | 0 <= j < |rest| && rest[j].name == name ensures j == i - 1 {
          assert windows[j + 1] == rest[j];
        }
      }
      UniqueMatchIsWhole(rest, name, i - 1);
    }
  }

  lemma MatchingWindowsSingleton(windows: seq<WindowState>, name: string)
    ensures |MatchingWindows(windows, name)| == 1 ==>
              exists i :: UniqueMatchAt(windows, name, i) && windows[i] == MatchingWindows(windows, name)[0]
    ensures forall i :: UniqueMatchAt(windows, name, i) ==> MatchingWindows(windows, name) == [windows[i]]
  {
    SingleMatchIsUnique(windows, name);
    forall i | UniqueMatchAt(windows, name, i)
      ensures MatchingWindows(windows, name) == [windows[i]]
    {
      UniqueMatchIsWhole(windows, name, i);
    }
  }

  /** No window matches exactly when no window carries the name. */
  lemma {:induction false} MatchingWindowsEmpty(windows: seq<WindowState>, name: string)
    ensures MatchingWindows(windows, name) == [] <==> forall j :: 0 <= j < |windows| ==> windows[j].name != name
  {
    if |windows| > 0 {
      var rest := windows[1..];
      MatchingWindowsEmpty(rest, name);
      if forall j :: 0 <= j < |windows| ==> windows[j].name != name {
        assert forall j :: 0 <= j < |rest| ==> rest[j].name != name by {
          forall j | 0 <= j < |rest| ensures rest[j].name != name {
            assert rest[j] == windows[j + 1];
          }
        }
      }
      if MatchingWindows(windows, name) == [] {
        forall j | 0 <= j < |windows| ensures windows[j].name != name {
          if j > 0 {
            assert rest[j - 1] == windows[j];
          }
        }
      }
    }
  }

  /** The checks made before the frame is read: the window must be focused,
      exactly one window must carry its name, and that window's display id
      must name a display. */
  function GetDisplayAndWindowState(state: WmState, windowName: string): (r: Result<Selection>)
    ensures r.Success? ==>
              && r.value.window.name == windowName
              && r.value.window in state.windows
              && r.value.window.displayId in state.displays
              && r.value.display == state.displays[r.value.window.displayId]
  {
    if state.focusedWindow != windowName then
      Failure("Test window must be the front window.")
    else
      var matching := MatchingWindows(state.windows, windowName);
      if |matching| != 1 then
        Failure("Should have exactly one window state for the activity.")
      else if matching[0].displayId !in state.displays then
        Failure("Should be on a display")
      else
        Success(Selection(matching[0], state.displays[matching[0].displayId]))
  }

  /** Selection succeeds exactly when the named window is focused, is the only
      window of that name, and sits on a known display; it then returns that
      window and its display. */
  lemma SelectionSucceedsIffUnique(state: WmState, windowName: string)
    ensures GetDisplayAndWindowState(state, windowName).Success? <==>
              && state.focusedWindow == windowName
              && exists i :: UniqueMatchAt(state.windows, windowName, i)
                             && state.windows[i].displayId in state.displays
    ensures forall i :: UniqueMatchAt(state.windows, windowName, i)
                        && state.focusedWindow == windowName
                        && state.windows[i].displayId in state.displays
                        ==> GetDisplayAndWindowState(state, windowName)
                            == Success(Selection(state.windows[i], state.displays[state.windows[i].displayId]))
  {
    MatchingWindowsSingleton(state.windows, windowName);
    if GetDisplayAndWindowState(state, windowName).Success? {
      var k :| UniqueMatchAt(state.windows, windowName, k)
               && state.windows[k] == MatchingWindows(state.windows, windowName)[0];
      assert state.windows[k].displayId in state.displays;
    }
  }

  /** Two windows of the same name make the state ambiguous. */
  lemma DuplicateNameFails(state: WmState, windowName: string, i: int, j: int)
    requires 0 <= i < j < |state.windows|
    requires state.windows[i].name == windowName == state.windows[j].name
    ensures GetDisplayAndWindowState(state, windowName).Failure?
  {
    SelectionSucceedsIffUnique(state, windowName);
  }

  // ---------------------------------------------------------------------------
  // Test scenarios

  /** "Top" or "Bottom", then "Left" or "Right", then "LayoutActivity"; any
      gravity other than top (or left) selects the second word. */
  function ActivityName(v: VerticalGravity, h: HorizontalGravity): (n: string)
    ensures |n| > 14 && n[|n| - 14..] == "LayoutActivity"
    ensures n[0] == 'T' <==> v == Top
    ensures n[if v == Top then 3 else 6] == 'L' <==> h == Left
  {
    (if v == Top then "Top" else "Bottom") + (if h == Left then "Left" else "Right") + "LayoutActivity"
  }

  /** The four anchored activities have four distinct names. */
  lemma ActivityNamesDistinct(v1: VerticalGravity, h1: HorizontalGravity, v2: VerticalGravity, h2: HorizontalGravity)
    requires v1 != CenterVertical && v2 != CenterVertical
    requires h1 != CenterHorizontal && h2 != CenterHorizontal
    ensures ActivityName(v1, h1) == ActivityName(v2, h2) ==> v1 == v2 && h1 == h2
  {
    if ActivityName(v1, h1) == ActivityName(v2, h2) {
      var n := ActivityName(v1, h1);
      assert n[0] == (if v1 == Top then 'T' else 'B');
      assert ActivityName(v2, h2)[0] == (if v2 == Top then 'T' else 'B');
      var k := if v1 == Top then 3 else 6;
      assert n[k] == (if h1 == Left then 'L' else 'R');
      assert ActivityName(v2, h2)[k] == (if h2 == Left then 'L' else 'R');
    }
  }

  datatype StackId = FreeformWorkspace | Docked

  /** The requests sent to the device's activity manager. */
  datatype AmCommand =
    | LaunchActivityInStack(activity: string, stack: StackId)
    | LaunchActivityInDockStack(activity: string)
    | ResizeActivityTask(activity: string, left: int, top: int, right: int, bottom: int)
    | ResizeDockedStack(stackWidth: int, stackHeight: int, taskWidth: int, taskHeight: int)

  datatype Verdict = Skipped | Passed | Failed(message: string)

  /** What a test method sent to the device and how it ended. */
  datatype Run = Run(commands: seq<AmCommand>, verdict: Verdict)

  function CheckVerdict(c: Check): Verdict {
    match c
    case Pass => Passed
    case Mismatch(message, _, _) => Failed(message)
  }

  /** `testLayout`: skipped without freeform support; otherwise launches the
      activity in the freeform stack, selects its window from `state` (the
      device's answer) and checks the frame against the expected size and the
      display's app rectangle. How an activity name becomes a window name is
      given by `windowNameOf`. */
  function TestLayout(
    supportsFreeform: bool, v: VerticalGravity, h: HorizontalGravity, fraction: bool,
    windowNameOf: string -> string, state: WmState): (r: Run)
    ensures !supportsFreeform ==> r == Run([], Skipped)
    ensures supportsFreeform ==>
              r.commands == [LaunchActivityInStack(ActivityName(v, h), FreeformWorkspace)]
    ensures r.verdict == Passed <==>
              && supportsFreeform
              && var found := GetDisplayAndWindowState(state, windowNameOf(ActivityName(v, h)));
              && found.Success?
              && var frame := found.value.window.containingFrame;
              && var appRect := found.value.display.appRect;
              && var size := ExpectedSize(fraction, found.value.display.densityDpi, appRect);
              && frame.width == size.width && frame.height == size.height
              && VerticallyAnchored(v, frame, appRect)
              && HorizontallyAnchored(h, frame, appRect)
  {
    if !supportsFreeform then Run([], Skipped)
    else
      var activity := ActivityName(v, h);
      var commands := [LaunchActivityInStack(activity, FreeformWorkspace)];
      match GetDisplayAndWindowState(state, windowNameOf(activity))
      case Failure(message) => Run(commands, Failed(message))
      case Success(sel) =>
        var size := ExpectedSize(fraction, sel.display.densityDpi, sel.display.appRect);
        Run(commands, CheckVerdict(VerifyFrameSizeAndPosition(
          v, h, size.width, size.height, sel.window.containingFrame, sel.display.appRect)))
  }

  /** The four gravity test methods: (vertical, horizontal, fraction mode). */
  const GravityTests: seq<(VerticalGravity, HorizontalGravity, bool)> := [
    (Top, Left, false),
    (Top, Right, true),
    (Bottom, Left, true),
    (Bottom, Right, false)
  ]

  /** The sole focused window of a 160dpi display with app rectangle
      (0,0,1000,1000) is selected, and the expected size there is 160x160. */
  lemma SingleWindowAt160(state: WmState, w: WindowState)
    requires state.windows == [w] && w.displayId in state.displays
    requires state.displays[w.displayId] == Display(w.displayId, 160, Rect(0, 0, 1000, 1000))
    requires state.focusedWindow == w.name
    ensures GetDisplayAndWindowState(state, w.name) == Success(Selection(w, state.displays[w.displayId]))
    ensures ExpectedSize(false, 160, Rect(0, 0, 1000, 1000)) == Size(160, 160)
  {
    assert UniqueMatchAt(state.windows, w.name, 0);
    SelectionSucceedsIffUnique(state, w.name);
    assert DpToPx(160, 160) == 160;
  }

  lemma CornerActivityNames()
    ensures ActivityName(Top, Left) == "TopLeftLayoutActivity"
    ensures ActivityName(Bottom, Right) == "BottomRightLayoutActivity"
  {
    assert "Top" + "Left" + "LayoutActivity" == "TopLeftLayoutActivity";
    assert "Bottom" + "Right" + "LayoutActivity" == "BottomRightLayoutActivity";
  }

  lemma TopLeftExample(windowNameOf: string -> string, state: WmState, w: WindowState)
    requires state.windows == [w] && w.displayId in state.displays
    requires state.displays[w.displayId] == Display(w.displayId, 160, Rect(0, 0, 1000, 1000))
    requires state.focusedWindow == w.name
    requires windowNameOf("TopLeftLayoutActivity") == w.name
    ensures TestLayout(true, Top, Left, false, windowNameOf, state).verdict == Passed
            <==> w.containingFrame == Rect(0, 0, 160, 160)
  {
    CornerActivityNames();
    SingleWindowAt160(state, w);
    TopLeftFrameIsDetermined(160, 160, w.containingFrame, Rect(0, 0, 1000, 1000));
  }

  lemma BottomRightExample(windowNameOf: string -> string, state: WmState, w: WindowState)
    requires state.windows == [w] && w.displayId in state.displays
    requires state.displays[w.displayId] == Display(w.displayId, 160, Rect(0, 0, 1000, 1000))
    requires state.focusedWindow == w.name
    requires windowNameOf("BottomRightLayoutActivity") == w.name
    ensures TestLayout(true, Bottom, Right, false, windowNameOf, state).verdict == Passed
            <==> w.containingFrame == Rect(840, 840, 160, 160)
  {
    CornerActivityNames();
    SingleWindowAt160(state, w);
    BottomRightFrameIsDetermined(160, 160, w.containingFrame, Rect(0, 0, 1000, 1000));
  }

  /** On a 160dpi display with app rectangle (0,0,1000,1000), the top-left
      test passes exactly when the window sits at (0,0) with size 160x160, and
      the bottom-right test exactly when it ends at (1000,1000). */
  lemma AbsoluteLayoutExamples(windowNameOf: string -> string, state: WmState, w: WindowState)
    requires state.windows == [w] && w.displayId in state.displays
    requires state.displays[w.displayId] == Display(w.displayId, 160, Rect(0, 0, 1000, 1000))
    requires state.focusedWindow == w.name
    ensures windowNameOf("TopLeftLayoutActivity") == w.name ==>
              (TestLayout(true, Top, Left, false, windowNameOf, state).verdict == Passed
               <==> w.containingFrame == Rect(0, 0, 160, 160))
    ensures windowNameOf("BottomRightLayoutActivity") == w.name ==>
              (TestLayout(true, Bottom, Right, false, windowNameOf, state).verdict == Passed
               <==> w.containingFrame == Rect(840, 840, 160, 160))
  {
    if windowNameOf("TopLeftLayoutActivity") == w.name {
      TopLeftExample(windowNameOf, state, w);
    }
    if windowNameOf("BottomRightLayoutActivity") == w.name {
      BottomRightExample(windowNameOf, state, w);
    }
  }

  /** `testMinimalSize`: launches the bottom-right activity in the given stack,
      asks for a 1x1 size, and checks the shorter side against the 80dp floor.
      Only the freeform variant is skipped without freeform support. */
  function TestMinimalSize(
    supportsFreeform: bool, stack: StackId, windowNameOf: string -> string, state: WmState): (r: Run)
    ensures stack == FreeformWorkspace && !supportsFreeform ==> r == Run([], Skipped)
    ensures stack == Docked ==> r.commands == [
              LaunchActivityInDockStack("BottomRightLayoutActivity"), ResizeDockedStack(1, 1, 1, 1)]
    ensures stack == FreeformWorkspace && supportsFreeform ==> r.commands == [
              LaunchActivityInStack("BottomRightLayoutActivity", FreeformWorkspace),
              ResizeActivityTask("BottomRightLayoutActivity", 0, 0, 1, 1)]
    ensures r.verdict == Passed <==>
              && !(stack == FreeformWorkspace && !supportsFreeform)
              && var found := GetDisplayAndWindowState(state, windowNameOf("BottomRightLayoutActivity"));
              && found.Success?
              && VerifyMinimalSize(found.value.display.densityDpi, found.value.window.containingFrame) == Pass
  {
    if stack == FreeformWorkspace && !supportsFreeform then Run([], Skipped)
    else
      var activity := "BottomRightLayoutActivity";
      var commands :=
        if stack == FreeformWorkspace then
          [LaunchActivityInStack(activity, stack), ResizeActivityTask(activity, 0, 0, 1, 1)]
        else
          [LaunchActivityInDockStack(activity), ResizeDockedStack(1, 1, 1, 1)];
      match GetDisplayAndWindowState(state, windowNameOf(activity))
      case Failure(message) => Run(commands, Failed(message))
      case Success(sel) =>
        Run(commands, CheckVerdict(VerifyMinimalSize(sel.display.densityDpi, sel.window.containingFrame)))
  }
}
