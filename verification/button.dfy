/**
 The button registry of the user interface: buttons are kept in creation
 order and addressed by 1-based ids. Callbacks are function pointers in the
 program; here they are opaque handles, so the model records which callback
 is invoked, not what it does.
 */
module Buttons {
  import opened Types
  import opened Options
  import opened Seqs

  type Callback = nat

  datatype Button = Button(position: Vector2, width: int, height: int, enabled: bool,
                           render: Option<Callback>, onClick: Option<Callback>)

  /**
   The conversion of a `double` to `int`: truncation toward zero. A value
   outside the range of `int`, undefined behaviour in the program, is not
   modelled.
   */
  function TruncToInt(x: real): (t: int)
    ensures x >= 0.0 ==> t as real <= x < t as real + 1.0
    ensures x < 0.0 ==> t as real - 1.0 < x <= t as real
  {
    if x >= 0.0 then x.Floor else -((-x).Floor)
  }

  /** The button's box in whole pixels: the corner is truncated, and width and height are added to it. */
  function Left(b: Button): int { TruncToInt(b.position.x) }
  function Top(b: Button): int { TruncToInt(b.position.y) }

  /** The hit test, closed on all four edges. */
  predicate PointInButton(x: int, y: int, b: Button) {
    x >= Left(b) && x <= Left(b) + b.width && y >= Top(b) && y <= Top(b) + b.height
  }

  /**
   The edges belong to the button: with a non-negative size all four
   corners of the truncated box are inside, and a pixel just outside any
   edge is not.
   */
  lemma ButtonEdgesClosed(b: Button, x: int, y: int)
    requires b.width >= 0 && b.height >= 0
    ensures var l, t := Left(b), Top(b);
      && PointInButton(l, t, b) && PointInButton(l + b.width, t, b)
      && PointInButton(l, t + b.height, b) && PointInButton(l + b.width, t + b.height, b)
    ensures !PointInButton(Left(b) - 1, y, b) && !PointInButton(Left(b) + b.width + 1, y, b)
    ensures !PointInButton(x, Top(b) - 1, b) && !PointInButton(x, Top(b) + b.height + 1, b)
  {
  }

  /**
   Because the corner is truncated toward zero, a button at a positive
   fractional position also answers to the whole pixel just before it.
   */
  lemma TruncationWidensBox(b: Button, x: int)
    requires b.width >= 0 && b.height >= 0
    requires 0.0 < b.position.x && x as real < b.position.x && b.position.x < x as real + 1.0
    requires 0.0 <= b.position.y && b.position.y == Top(b) as real
    ensures PointInButton(x, Top(b), b)
  {
  }

  /** Appends a new, disabled button and returns its id, which is the new size of the registry. */
  function CreateButton(reg: seq<Button>, x: real, y: real, width: int, height: int,
                        render: Option<Callback>, onClick: Option<Callback>): (r: (seq<Button>, int))
    ensures |r.0| == |reg| + 1 && r.1 == |r.0| && r.0[..|reg|] == reg
    ensures var b := r.0[|reg|];
      && b.position == Vector2(x, y) && b.width == width && b.height == height
      && !b.enabled && b.render == render && b.onClick == onClick
  {
    var reg' := reg + [Button(Vector2(x, y), width, height, false, render, onClick)];
    (reg', |reg'|)
  }

  /** The button with the given id; none for an id outside 1 .. size. */
  function GetButton(reg: seq<Button>, id: int): (r: Option<Button>)
    ensures r.Some? <==> 1 <= id <= |reg|
    ensures r.Some? ==> r.value == reg[id - 1]
  {
    var index := id - 1;
    if index < 0 || index >= |reg| then None else Some(reg[index])
  }

  /** The id `CreateButton` returns finds the new button, disabled. */
  lemma CreateThenGet(reg: seq<Button>, x: real, y: real, width: int, height: int,
                      render: Option<Callback>, onClick: Option<Callback>)
    ensures var (reg', id) := CreateButton(reg, x, y, width, height, render, onClick);
      GetButton(reg', id) == Some(Button(Vector2(x, y), width, height, false, render, onClick))
  {
  }

  /** Sets the enabled flag of the button with the given id; an invalid id changes nothing. */
  function SetEnabled(reg: seq<Button>, id: int, on: bool): (r: seq<Button>)
    ensures !(1 <= id <= |reg|) ==> r == reg
    ensures 1 <= id <= |reg| ==> |r| == |reg| && r[id - 1] == reg[id - 1].(enabled := on)
    ensures forall j :: 0 <= j < |reg| && j != id - 1 ==> j < |r| && r[j] == reg[j]
  {
    match GetButton(reg, id)
    case None => reg
    case Some(b) => reg[id - 1 := b.(enabled := on)]
  }

  function EnableButton(reg: seq<Button>, id: int): (r: seq<Button>)
    ensures !(1 <= id <= |reg|) ==> r == reg
    ensures 1 <= id <= |reg| ==> r == reg[id - 1 := reg[id - 1].(enabled := true)]
  {
    SetEnabled(reg, id, true)
  }

  function DisableButton(reg: seq<Button>, id: int): (r: seq<Button>)
    ensures !(1 <= id <= |reg|) ==> r == reg
    ensures 1 <= id <= |reg| ==> r == reg[id - 1 := reg[id - 1].(enabled := false)]
  {
    SetEnabled(reg, id, false)
  }

  /** Deletes every button. */
  function DestroyButtons(reg: seq<Button>): (r: seq<Button>)
    ensures |r| == 0
  {
    []
  }

  /** After the registry is emptied, ids start again from 1. */
  lemma DestroyThenCreate(reg: seq<Button>, x: real, y: real, width: int, height: int,
                          render: Option<Callback>, onClick: Option<Callback>)
    ensures CreateButton(DestroyButtons(reg), x, y, width, height, render, onClick).1 == 1
    ensures GetButton(DestroyButtons(reg), 1).None?
  {
  }

  /** A button reacts to a click at `(x, y)` when it is enabled and contains the point. */
  function ClickableAt(x: int, y: int): Button -> bool {
    (b: Button) => b.enabled && PointInButton(x, y, b)
  }

  /**
   A click at `(x, y)`: the buttons are tried in creation order, disabled
   ones and ones not under the point are skipped, and the first that
   remains is pressed. Its `onClick` callback, if it has one, is invoked, and
   the search stops there even if it has none.
   */
  method PressButtons(reg: seq<Button>, x: int, y: int) returns (pressed: Option<nat>, invoked: Option<Callback>)
    ensures pressed == FirstIndex(reg, ClickableAt(x, y))
    ensures pressed.None? ==> invoked.None?
    ensures pressed.Some? ==> invoked == reg[pressed.value].onClick
  {
    var i := 0;
    while i < |reg|
      invariant 0 <= i <= |reg|
      invariant forall j :: 0 <= j < i ==> !ClickableAt(x, y)(reg[j])
    {
      var b := reg[i];
      if !b.enabled || !PointInButton(x, y, b) {
        i := i + 1;
        continue;
      }
      return Some(i), b.onClick;
    }
    return None, None;
  }

  /** The pressed button is enabled and under the point, and no earlier button is both. */
  lemma PressedIsFirstClickable(reg: seq<Button>, x: int, y: int)
    requires FirstIndex(reg, ClickableAt(x, y)).Some?
    ensures var k := FirstIndex(reg, ClickableAt(x, y)).value;
      && k < |reg| && reg[k].enabled && PointInButton(x, y, reg[k])
      && forall j :: 0 <= j < k ==> !(reg[j].enabled && PointInButton(x, y, reg[j]))
  {
    var k := FirstIndex(reg, ClickableAt(x, y)).value;
    assert ClickableAt(x, y)(reg[k]);
    forall j | 0 <= j < k ensures !(reg[j].enabled && PointInButton(x, y, reg[j])) {
      assert !ClickableAt(x, y)(reg[j]);
    }
  }

  /** A disabled button is never pressed, wherever the click lands. */
  lemma DisabledNeverPressed(reg: seq<Button>, id: int, x: int, y: int)
    requires 1 <= id <= |reg|
    ensures FirstIndex(DisableButton(reg, id), ClickableAt(x, y)) != Some(id - 1)
  {
    var r := DisableButton(reg, id);
    assert !ClickableAt(x, y)(r[id - 1]);
  }

  /**
   Enabling a button under the point makes it the one pressed, unless an
   earlier button already takes the click.
   */
  lemma EnabledIsPressed(reg: seq<Button>, id: int, x: int, y: int)
    requires 1 <= id <= |reg| && PointInButton(x, y, reg[id - 1])
    requires forall j :: 0 <= j < id - 1 ==> !ClickableAt(x, y)(reg[j])
    ensures FirstIndex(EnableButton(reg, id), ClickableAt(x, y)) == Some(id - 1)
  {
    var r := EnableButton(reg, id);
    assert ClickableAt(x, y)(r[id - 1]);
    forall j | 0 <= j < id - 1 ensures !ClickableAt(x, y)(r[j]) {
      assert r[j] == reg[j];
    }
  }

  /** A button is drawn when it is enabled and has a render callback. */
  predicate Drawn(b: Button) {
    b.enabled && b.render.Some?
  }

  /** The indices of the buttons drawn in a frame, in creation order. */
  function Rendered(reg: seq<Button>): (r: seq<nat>)
    ensures forall k :: 0 <= k < |r| ==> r[k] < |reg|
    decreases |reg|
  {
    if |reg| == 0 then []
    else
      var n := |reg| - 1;
      Rendered(reg[..n]) + (if Drawn(reg[n]) then [n] else [])
  }

  /**
   Exactly the enabled buttons that have a render callback are drawn, each
   once and in creation order; a disabled button is never drawn.
   */
  lemma {:induction false} RenderedExactly(reg: seq<Button>)
    ensures forall k :: 0 <= k < |Rendered(reg)| ==> Rendered(reg)[k] < |reg| && Drawn(reg[Rendered(reg)[k]])
    ensures forall i :: 0 <= i < |reg| ==> (Drawn(reg[i]) <==> i in Rendered(reg))
    ensures forall k, l :: 0 <= k < l < |Rendered(reg)| ==> Rendered(reg)[k] < Rendered(reg)[l]
    decreases |reg|
  {
    if |reg| > 0 {
      var n := |reg| - 1;
      var p := reg[..n];
      RenderedExactly(p);
      var f := Rendered(p);
      var tail: seq<nat> := if Drawn(reg[n]) then [n] else [];
      assert Rendered(reg) == f + tail;
      forall k | 0 <= k < |f| ensures reg[f[k]] == p[f[k]] { }
      forall i | 0 <= i < n ensures (i in Rendered(reg) <==> i in f) && reg[i] == p[i] {
        assert i !in tail;
      }
    }
  }

  /** The drawing pass: each enabled button's render callback is invoked, in creation order. */
  method RenderButtons(reg: seq<Button>) returns (calls: seq<Callback>)
    ensures |calls| == |Rendered(reg)|
    ensures forall k :: 0 <= k < |calls| ==> reg[Rendered(reg)[k]].render == Some(calls[k])
  {
    calls := [];
    var i := 0;
    while i < |reg|
      invariant 0 <= i <= |reg|
      invariant |calls| == |Rendered(reg[..i])|
      invariant forall k :: 0 <= k < |calls| ==> reg[Rendered(reg[..i])[k]].render == Some(calls[k])
    {
      assert reg[..i + 1][..i] == reg[..i];
      var b := reg[i];
      if Drawn(b) {
        calls := calls + [b.render.value];
      }
      i := i + 1;
    }
    assert reg[..i] == reg;
  }
}
