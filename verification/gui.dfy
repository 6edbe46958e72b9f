/**
 * The GUI layout tree: buttons and labels, possibly nested in vertical
 * layouts, each top-level element anchored to the window by an alignment.
 * Resizing the window walks the tree and reports one position change per
 * button or label, in tree order.
 *
 * The tree is immutable and modelled by value (datatypes); the event vector
 * that the `resize` methods append to is threaded through them as a
 * sequence; the `Gui` object, whose width and height `resize` updates, is a
 * class.
 */
module Gui {

  /** An unsigned 32-bit integer. */
  type U32 = n: nat | n < 0x1_0000_0000

  datatype Option<T> = None | Some(value: T)

  /** A point of the window in pixels. */
  datatype Vec2 = Vec2(x: real, y: real)

  /** A mouse event at a point of the window. */
  datatype MouseEvent = Pressed(at: Vec2) | Released(at: Vec2) | Moved(at: Vec2)

  /** The id of a button or of a label; the two id types are chosen by the application. */
  datatype ElementId<B, L> = OfButton(buttonId: B) | OfLabel(labelId: L)

  /** The new absolute position of one element. */
  datatype ChangePositionEvent<B, L> = ChangePositionEvent(elementId: ElementId<B, L>, x: U32, y: U32)

  /** A click on the button with id `elementId`. */
  datatype ButtonPressedEvent<E> = ButtonPressedEvent(elementId: E)

  /** A button: its size and its id. */
  datatype Button<B> = Button(width: U32, height: U32, buttonId: B)
  {
    function Id(): B { buttonId }
  }

  /** A label: its size and its id. */
  datatype Label<L> = Label(width: U32, height: U32, labelId: L)
  {
    function Id(): L { labelId }
  }

  /** A node of the layout tree. */
  datatype GuiElement<B, L> =
    | ButtonElement(button: Button<B>)
    | LabelElement(lbl: Label<L>)
    | LayoutElement(layout: VerticalLayout<B, L>)

  /** A vertical layout: its children, first to last. */
  datatype VerticalLayout<B, L> = VerticalLayout(elements: seq<GuiElement<B, L>>)

  /** The anchor of a top-level element. */
  datatype Alignment = TopLeft | TopRight | BottomLeft | BottomRight

  /** A top-level element with its alignment and its offset (x, y). */
  datatype AlignedElement<B, L> = AlignedElement(alignment: Alignment, x: U32, y: U32, element: GuiElement<B, L>)

  /** `ChangePositionEvent::new_button`: a position event for the button with id `id`. */
  function NewButton<B, L>(id: B, x: U32, y: U32): (e: ChangePositionEvent<B, L>)
    ensures e.elementId.OfButton? && e.elementId.buttonId == id
    ensures e.x == x && e.y == y
  {
    ChangePositionEvent(OfButton(id), x, y)
  }

  /** `ChangePositionEvent::new_label`: a position event for the label with id `id`. */
  function NewLabel<B, L>(id: L, x: U32, y: U32): (e: ChangePositionEvent<B, L>)
    ensures e.elementId.OfLabel? && e.elementId.labelId == id
    ensures e.x == x && e.y == y
  {
    ChangePositionEvent(OfLabel(id), x, y)
  }

  /** The alignments whose first coordinate grows with the offset. */
  predicate AddsX(a: Alignment)
  {
    a == TopLeft || a == TopRight
  }

  /** The alignments whose second coordinate grows with the offset. */
  predicate AddsY(a: Alignment)
  {
    a == TopLeft || a == BottomLeft
  }

  /**
   * The absolute position of `e` in a `width` x `height` window is a pair of
   * `u32`: no addition overflows and no subtraction goes below zero.
   */
  predicate Fits<B, L>(e: AlignedElement<B, L>, width: U32, height: U32)
  {
    (if AddsX(e.alignment) then width + e.x < 0x1_0000_0000 else e.x <= width) &&
    (if AddsY(e.alignment) then height + e.y < 0x1_0000_0000 else e.y <= height)
  }

  /**
   * `calculate_absolute_position`: the offset is added to or subtracted
   * from the window size, coordinate by coordinate, as the alignment says.
   */
  function AbsolutePosition<B, L>(e: AlignedElement<B, L>, width: U32, height: U32): (p: (U32, U32))
    requires Fits(e, width, height)
    ensures AddsX(e.alignment) ==> p.0 >= width && p.0 - width == e.x
    ensures !AddsX(e.alignment) ==> p.0 <= width && width - p.0 == e.x
    ensures AddsY(e.alignment) ==> p.1 >= height && p.1 - height == e.y
    ensures !AddsY(e.alignment) ==> p.1 <= height && height - p.1 == e.y
  {
    match e.alignment
    case TopLeft => (width + e.x, height + e.y)
    case TopRight => (width + e.x, height - e.y)
    case BottomLeft => (width - e.x, height + e.y)
    case BottomRight => (width - e.x, height - e.y)
  }

  /** The offset that places an element with alignment `a` at `p` in a `width` x `height` window. */
  function RelativePosition(a: Alignment, p: (U32, U32), width: U32, height: U32): (int, int)
  {
    (if AddsX(a) then p.0 - width else width - p.0,
     if AddsY(a) then p.1 - height else height - p.1)
  }

  /**
   * The offset can be recovered from the absolute position: for a fixed
   * alignment and window, different offsets give different positions.
   */
  lemma RelativeOfAbsolute<B, L>(e: AlignedElement<B, L>, width: U32, height: U32)
    requires Fits(e, width, height)
    ensures RelativePosition(e.alignment, AbsolutePosition(e, width, height), width, height) == (e.x, e.y)
  {
  }

  /** Every element is placed at `(x, y)` with the id of the leaf, in leaf order. */
  function AtPosition<B, L>(ids: seq<ElementId<B, L>>, x: U32, y: U32): (events: seq<ChangePositionEvent<B, L>>)
    ensures |events| == |ids|
    ensures forall i :: 0 <= i < |ids| ==> events[i] == ChangePositionEvent(ids[i], x, y)
  {
    seq(|ids|, i requires 0 <= i < |ids| => ChangePositionEvent(ids[i], x, y))
  }

  /** Placing two runs of leaves is placing their concatenation. */
  lemma AtPositionAppend<B, L>(a: seq<ElementId<B, L>>, b: seq<ElementId<B, L>>, x: U32, y: U32)
    ensures AtPosition(a + b, x, y) == AtPosition(a, x, y) + AtPosition(b, x, y)
  {
    assert forall i :: 0 <= i < |a + b| ==> AtPosition(a + b, x, y)[i] == (AtPosition(a, x, y) + AtPosition(b, x, y))[i];
  }

  /** The ids of the buttons and labels of a subtree, first to last, descending into layouts. */
  function Leaves<B, L>(e: GuiElement<B, L>): seq<ElementId<B, L>>
    decreases e, 1
  {
    match e
    case ButtonElement(b) => [OfButton(b.buttonId)]
    case LabelElement(l) => [OfLabel(l.labelId)]
    case LayoutElement(v) => ChildLeaves(v.elements)
  }

  /** The leaves of a sequence of siblings, first sibling first. */
  function ChildLeaves<B, L>(children: seq<GuiElement<B, L>>): seq<ElementId<B, L>>
    decreases children, 0
  {
    if |children| == 0 then [] else Leaves(children[0]) + ChildLeaves(children[1..])
  }

  /** Appending a sibling appends its leaves. */
  lemma {:induction false} ChildLeavesSnoc<B, L>(children: seq<GuiElement<B, L>>, e: GuiElement<B, L>)
    ensures ChildLeaves(children + [e]) == ChildLeaves(children) + Leaves(e)
  {
    if |children| > 0 {
      assert (children + [e])[1..] == children[1..] + [e];
      ChildLeavesSnoc(children[1..], e);
    } else {
      assert [e][1..] == [];
    }
  }

  /**
   * The events one element reports when placed at (x, y): one for a button
   * or a label, and those of every child, in order, for a layout.
   */
  function ElementEvents<B, L>(e: GuiElement<B, L>, x: U32, y: U32): seq<ChangePositionEvent<B, L>>
    decreases e, 1
  {
    match e
    case ButtonElement(b) => [NewButton(b.Id(), x, y)]
    case LabelElement(l) => [NewLabel(l.Id(), x, y)]
    case LayoutElement(v) => ChildrenEvents(v.elements, x, y)
  }

  /** The events of a sequence of siblings placed at (x, y), as the loop appends them. */
  function ChildrenEvents<B, L>(children: seq<GuiElement<B, L>>, x: U32, y: U32): seq<ChangePositionEvent<B, L>>
    decreases children, 0
  {
    if |children| == 0 then []
    else ChildrenEvents(children[..|children| - 1], x, y) + ElementEvents(children[|children| - 1], x, y)
  }

  /**
   * Flattening: an element placed at (x, y) reports exactly its leaves, in
   * order, every one at (x, y). There is no offset between the children of a
   * layout, and the number of events is the number of leaves.
   */
  lemma {:induction false} ElementEventsAreLeaves<B, L>(e: GuiElement<B, L>, x: U32, y: U32)
    ensures ElementEvents(e, x, y) == AtPosition(Leaves(e), x, y)
    decreases e, 1
  {
    match e
    case ButtonElement(b) =>
    case LabelElement(l) =>
    case LayoutElement(v) => ChildrenEventsAreLeaves(v.elements, x, y);
  }

  /** The siblings placed at (x, y) report their leaves, in order, every one at (x, y). */
  lemma {:induction false} ChildrenEventsAreLeaves<B, L>(children: seq<GuiElement<B, L>>, x: U32, y: U32)
    ensures ChildrenEvents(children, x, y) == AtPosition(ChildLeaves(children), x, y)
    decreases children, 0
  {
    if |children| > 0 {
      var init, last := children[..|children| - 1], children[|children| - 1];
      assert children == init + [last];
      ChildrenEventsAreLeaves(init, x, y);
      ElementEventsAreLeaves(last, x, y);
      ChildLeavesSnoc(init, last);
      AtPositionAppend(ChildLeaves(init), Leaves(last), x, y);
    }
  }

  /** The events of a top-level element: its subtree placed at its absolute position. */
  function AlignedEvents<B, L>(e: AlignedElement<B, L>, width: U32, height: U32): seq<ChangePositionEvent<B, L>>
    requires Fits(e, width, height)
  {
    var p := AbsolutePosition(e, width, height);
    ElementEvents(e.element, p.0, p.1)
  }

  /** Every top-level element fits the window. */
  predicate AllFit<B, L>(elements: seq<AlignedElement<B, L>>, width: U32, height: U32)
  {
    forall i :: 0 <= i < |elements| ==> Fits(elements[i], width, height)
  }

  /** The events of all top-level elements, first element first. */
  function GuiEvents<B, L>(elements: seq<AlignedElement<B, L>>, width: U32, height: U32): seq<ChangePositionEvent<B, L>>
    requires AllFit(elements, width, height)
  {
    if |elements| == 0 then []
    else GuiEvents(elements[..|elements| - 1], width, height) + AlignedEvents(elements[|elements| - 1], width, height)
  }

  /** The number of leaves under all top-level elements. */
  function LeafCount<B, L>(elements: seq<AlignedElement<B, L>>): nat
  {
    if |elements| == 0 then 0 else LeafCount(elements[..|elements| - 1]) + |Leaves(elements[|elements| - 1].element)|
  }

  /** A resize reports one event per button or label of the tree. */
  lemma {:induction false} GuiEventsCount<B, L>(elements: seq<AlignedElement<B, L>>, width: U32, height: U32)
    requires AllFit(elements, width, height)
    ensures |GuiEvents(elements, width, height)| == LeafCount(elements)
  {
    if |elements| > 0 {
      var last := elements[|elements| - 1];
      GuiEventsCount(elements[..|elements| - 1], width, height);
      var p := AbsolutePosition(last, width, height);
      ElementEventsAreLeaves(last.element, p.0, p.1);
    }
  }

  /**
   * `VerticalLayout::resize`: appends to `res` the events of every child,
   * in order, all at (absX, absY), descending into nested layouts.
   */
  method LayoutResize<B, L>(layout: VerticalLayout<B, L>, absX: U32, absY: U32, res: seq<ChangePositionEvent<B, L>>)
    returns (res': seq<ChangePositionEvent<B, L>>)
    ensures res' == res + ChildrenEvents(layout.elements, absX, absY)
    decreases layout
  {
    res' := res;
    for i := 0 to |layout.elements|
      invariant res' == res + ChildrenEvents(layout.elements[..i], absX, absY)
    {
      var element := layout.elements[i];
      assert layout.elements[..i + 1] == layout.elements[..i] + [element];
      match element
      case ButtonElement(button) =>
        var buttonId := button.Id();
        var event := NewButton(buttonId, absX, absY);
        res' := res' + [event];
      case LabelElement(lbl) =>
        var labelId := lbl.Id();
        var event := NewLabel(labelId, absX, absY);
        res' := res' + [event];
      case LayoutElement(verticalLayout) =>
        assert element in layout.elements;
        res' := LayoutResize(verticalLayout, absX, absY, res');
    }
    assert layout.elements[..|layout.elements|] == layout.elements;
  }

  /**
   * `AlignedElement::resize`: appends to `res` the events of the element
   * at its absolute position.
   */
  method AlignedResize<B, L>(e: AlignedElement<B, L>, width: U32, height: U32, res: seq<ChangePositionEvent<B, L>>)
    returns (res': seq<ChangePositionEvent<B, L>>)
    requires Fits(e, width, height)
    ensures res' == res + AlignedEvents(e, width, height)
  {
    var (absX, absY) := AbsolutePosition(e, width, height);
    match e.element
    case ButtonElement(button) =>
      var buttonId := button.Id();
      var event := NewButton(buttonId, absX, absY);
      res' := res + [event];
    case LabelElement(lbl) =>
      var labelId := lbl.Id();
      var event := NewLabel(labelId, absX, absY);
      res' := res + [event];
    case LayoutElement(verticalLayout) =>
      res' := LayoutResize(verticalLayout, absX, absY, res);
  }

  /** The GUI: the window size and the top-level elements. */
  class Gui<B, L> {
    var width: U32
    var height: U32
    var elements: seq<AlignedElement<B, L>>

    /** `Gui::new`: stores the size and the elements as given. */
    constructor (width: U32, height: U32, elements: seq<AlignedElement<B, L>>)
      ensures this.width == width && this.height == height && this.elements == elements
    {
      this.width := width;
      this.height := height;
      this.elements := elements;
    }

    /**
     * `Gui::resize`: records the new window size and returns the events of
     * every top-level element, first element first. The elements are left
     * as they were.
     */
    method Resize(width: U32, height: U32) returns (res: seq<ChangePositionEvent<B, L>>)
      requires AllFit(elements, width, height)
      modifies this
      ensures this.width == width && this.height == height
      ensures elements == old(elements)
      ensures res == GuiEvents(elements, width, height)
    {
      this.width := width;
      this.height := height;
      res := [];
      for i := 0 to |elements|
        invariant elements == old(elements) && AllFit(elements, width, height)
        invariant this.width == width && this.height == height
        invariant res == GuiEvents(elements[..i], width, height)
      {
        assert elements[..i + 1][..i] == elements[..i];
        res := AlignedResize(elements[i], this.width, this.height, res);
      }
      assert elements[..|elements|] == elements;
    }

    /** `Gui::mouse_event`: no element reacts to the mouse yet. */
    function MouseEventResult(mouseEvent: MouseEvent): (r: (bool, Option<ButtonPressedEvent<B>>))
      ensures !r.0 && r.1 == None
    {
      (false, None)
    }
  }

  /** The button ids of the layout test. */
  datatype TestButton = PerformanceGraph | SwitchViewPoint | SwitchTexture

  /** The label ids of the layout test. */
  datatype TestLabel = Fps | Menu

  /** Three buttons and two labels, 10 x 20 each, in one vertical layout. */
  function TestLayout(): VerticalLayout<TestButton, TestLabel>
  {
    VerticalLayout([
      ButtonElement(Button(10, 20, PerformanceGraph)),
      ButtonElement(Button(10, 20, SwitchViewPoint)),
      ButtonElement(Button(10, 20, SwitchTexture)),
      LabelElement(Label(10, 20, Fps)),
      LabelElement(Label(10, 20, Menu))])
  }

  /** The leaves of the test layout, top to bottom. */
  lemma TestLayoutLeaves()
    ensures Leaves(LayoutElement(TestLayout())) == [OfButton(PerformanceGraph), OfButton(SwitchViewPoint),
                                                    OfButton(SwitchTexture), OfLabel(Fps), OfLabel(Menu)]
  {
    var c := TestLayout().elements;
    assert c[4..][1..] == [];
    assert ChildLeaves(c[4..]) == [OfLabel(Menu)];
    assert c[3..][1..] == c[4..];
    assert ChildLeaves(c[3..]) == [OfLabel(Fps), OfLabel(Menu)];
    assert c[2..][1..] == c[3..];
    assert ChildLeaves(c[2..]) == [OfButton(SwitchTexture), OfLabel(Fps), OfLabel(Menu)];
    assert c[1..][1..] == c[2..];
    assert ChildLeaves(c[1..]) == [OfButton(SwitchViewPoint), OfButton(SwitchTexture), OfLabel(Fps), OfLabel(Menu)];
  }

  /**
   * The layout test: an 800 x 600 GUI holding the layout anchored
   * bottom-right at (20, 20), resized to 400 x 400, reports five events:
   * the five leaves in order, all at (380, 380).
   */
  method CreateAndUse() returns (res: seq<ChangePositionEvent<TestButton, TestLabel>>)
    ensures |res| == 5
    ensures res == AtPosition([OfButton(PerformanceGraph), OfButton(SwitchViewPoint), OfButton(SwitchTexture),
                               OfLabel(Fps), OfLabel(Menu)], 380, 380)
  {
    var top := AlignedElement(BottomRight, 20, 20, LayoutElement(TestLayout()));
    var gui := new Gui(800, 600, [top]);
    res := gui.Resize(400, 400);
    assert AbsolutePosition(top, 400, 400) == (380, 380);
    assert [top][..0] == [];
    assert res == ElementEvents(top.element, 380, 380);
    ElementEventsAreLeaves(top.element, 380, 380);
    TestLayoutLeaves();
  }
}
