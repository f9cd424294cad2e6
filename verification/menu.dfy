/**
 * `Menu` (the engine's, not the game state of the same name): a title and
 * a list of entries drawn into the middle column of a `GUI`, each entry
 * with a passive and an active drawable, and a cursor that the keys move
 * with wrap-around and the pointer sets by hit testing.
 */
module Menus {
  import opened Wrappers
  import opened Graphics
  import Gui
  import JavaNum

  datatype Menu = Menu(gui: Gui.Gui, passive: seq<Drawable>, active: seq<Drawable>,
                       title: Option<Drawable>, position: int)

  /** The two entry lists stay the same length. */
  predicate Valid(m: Menu) {
    Gui.Valid(m.gui) && |m.passive| == |m.active|
  }

  /** The number of entries. */
  function Count(m: Menu): nat {
    |m.passive|
  }

  /** The cursor is on an entry. */
  predicate OnEntry(m: Menu) {
    0 <= m.position < Count(m)
  }

  /** The constructor: no entries, no title, the cursor at 0. */
  function NewMenu(gui: Gui.Gui): (m: Menu)
    requires Gui.Valid(gui)
    ensures Valid(m) && Count(m) == 0 && m.title.None? && m.position == 0 && m.gui == gui
  {
    Menu(gui, [], [], None, 0)
  }

  /** `setTitle(d)`. */
  function SetTitle(m: Menu, d: Drawable): (r: Menu)
    requires Valid(m)
    ensures Valid(r) && r.title == Some(d) && r == m.(title := r.title)
  {
    m.(title := Some(d))
  }

  /** `addEntry(passive, active)`: both lists grow by one, in step. */
  function AddEntry(m: Menu, passive: Drawable, active: Drawable): (r: Menu)
    requires Valid(m)
    ensures Valid(r) && Count(r) == Count(m) + 1
    ensures r.passive[..Count(m)] == m.passive && r.active[..Count(m)] == m.active
    ensures r.passive[Count(m)] == passive && r.active[Count(m)] == active
    ensures r.gui == m.gui && r.title == m.title && r.position == m.position
  {
    m.(passive := m.passive + [passive], active := m.active + [active])
  }

  /** `clearEntries()`: both lists emptied; the cursor is left where it was. */
  function ClearEntries(m: Menu): (r: Menu)
    requires Valid(m)
    ensures Valid(r) && Count(r) == 0 && |r.active| == 0
    ensures r.gui == m.gui && r.title == m.title && r.position == m.position
  {
    m.(passive := [], active := [])
  }

  /** `clear()`: empty the two sections the menu draws into. */
  function Clear(m: Menu): (r: Menu)
    requires Valid(m)
    ensures Valid(r) && r.gui.sections[1][0] == [] && r.gui.sections[1][1] == []
    ensures forall a, b :: Gui.Section(a, b) && (a, b) != (1, 0) && (a, b) != (1, 1) ==>
              r.gui.sections[a][b] == m.gui.sections[a][b]
    ensures r == m.(gui := r.gui) && r.gui.padding == m.gui.padding
  {
    m.(gui := Gui.ClearSection(Gui.ClearSection(m.gui, 1, 0), 1, 1))
  }

  /** The drawable entry `k` shows: the active one under the cursor, the passive one elsewhere. */
  function Shown(m: Menu, k: int): Drawable
    requires Valid(m) && 0 <= k < Count(m)
  {
    if k == m.position then m.active[k] else m.passive[k]
  }

  /** What the first `n` entries show, in order. */
  function Showing(m: Menu, n: nat): (r: seq<Drawable>)
    requires Valid(m) && n <= Count(m)
    ensures |r| == n && forall k :: 0 <= k < n ==> r[k] == Shown(m, k)
  {
    seq(n, k requires 0 <= k < n => Shown(m, k))
  }

  lemma ShowingSnoc(m: Menu, n: nat)
    requires Valid(m) && n < Count(m)
    ensures Showing(m, n + 1) == Showing(m, n) + [Shown(m, n)]
  {
    assert Showing(m, n + 1) == Showing(m, n) + [Shown(m, n)];
  }

  /**
   * `render()`: clear the menu's sections, put the title in section (1, 0)
   * and every entry, in order, in section (1, 1).
   */
  method Render(m: Menu) returns (r: Menu)
    requires Valid(m) && m.title.Some?
    ensures Valid(r) && r == m.(gui := r.gui)
    ensures r.gui.sections[1][0] == [m.title.value]
    ensures |r.gui.sections[1][1]| == Count(m)
    ensures forall k :: 0 <= k < Count(m) ==>
              r.gui.sections[1][1][k] == (if k == m.position then m.active[k] else m.passive[k])
    ensures forall a, b :: Gui.Section(a, b) && (a, b) != (1, 0) && (a, b) != (1, 1) ==>
              r.gui.sections[a][b] == m.gui.sections[a][b]
    ensures r.gui.padding == m.gui.padding && r.gui.width == m.gui.width && r.gui.height == m.gui.height
  {
    var base := Gui.ClearSection(Gui.ClearSection(m.gui, 1, 0), 1, 1);
    base := Gui.AddToSection(base, m.title.value, 1, 0);
    var g := base;
    var i := 0;
    assert Showing(m, 0) == [];
    Gui.ReplaceSame(base, 1, 1);
    while i < Count(m)
      invariant 0 <= i <= Count(m)
      invariant g == Gui.Replace(base, 1, 1, Showing(m, i))
    {
      var d := if i == m.position then m.active[i] else m.passive[i];
      ShowingSnoc(m, i);
      Gui.ReplaceTwice(base, 1, 1, Showing(m, i), Showing(m, i + 1));
      g := Gui.AddToSection(g, d, 1, 1);
      i := i + 1;
    }
    r := m.(gui := g);
  }

  /** `moveUp()`: one entry up, from the first to the last. */
  function MoveUp(m: Menu): (r: Menu)
    requires Valid(m)
    ensures Valid(r) && r == m.(position := r.position)
    ensures OnEntry(m) ==> OnEntry(r) && r.position == (m.position - 1) % Count(m)
  {
    var p := m.position - 1;
    m.(position := if p < 0 then p + Count(m) else p)
  }

  /** `moveDown()`: one entry down, from the last to the first. */
  function MoveDown(m: Menu): (r: Menu)
    requires Valid(m)
    ensures Valid(r) && r == m.(position := r.position)
    ensures OnEntry(m) ==> OnEntry(r) && r.position == (m.position + 1) % Count(m)
  {
    var p := m.position + 1;
    m.(position := if p >= Count(m) then p - Count(m) else p)
  }

  /** On an entry, the two moves undo each other. */
  lemma MovesCancel(m: Menu)
    requires Valid(m) && OnEntry(m)
    ensures MoveDown(MoveUp(m)) == m
    ensures MoveUp(MoveDown(m)) == m
  {
  }

  /** `k` presses of the down key. */
  function MoveDownTimes(m: Menu, k: nat): (r: Menu)
    requires Valid(m)
    ensures Valid(r) && r == m.(position := r.position) && Count(r) == Count(m)
    decreases k
  {
    if k == 0 then m else MoveDown(MoveDownTimes(m, k - 1))
  }

  /** `k` presses of the down key advance the cursor by `k` modulo the entry count. */
  lemma {:induction false} MoveDownCycles(m: Menu, k: nat)
    requires Valid(m) && OnEntry(m)
    ensures OnEntry(MoveDownTimes(m, k))
    ensures MoveDownTimes(m, k).position == (m.position + k) % Count(m)
    decreases k
  {
    if k > 0 {
      var prev := MoveDownTimes(m, k - 1);
      MoveDownCycles(m, k - 1);
      MoveDownStep(prev, m.position + k - 1, Count(m));
      assert MoveDownTimes(m, k) == MoveDown(prev);
    }
  }

  /** From the entry `a` modulo the count, one press down lands on `a + 1` modulo the count. */
  lemma MoveDownStep(m: Menu, a: int, n: int)
    requires Valid(m) && Count(m) == n > 0 && m.position == a % n
    ensures OnEntry(MoveDown(m)) && MoveDown(m).position == (a + 1) % n
  {
    ModSucc(a, n);
  }

  lemma ModSucc(a: int, n: int)
    requires n > 0
    ensures (a % n + 1) % n == (a + 1) % n
  {
    var q := a / n;
    var r := a % n;
    if r + 1 < n {
      assert a + 1 == q * n + (r + 1);
      ModUnique(a + 1, n, q, r + 1);
      ModUnique(r + 1, n, 0, r + 1);
    } else {
      assert a + 1 == (q + 1) * n;
      ModUnique(a + 1, n, q + 1, 0);
      ModUnique(r + 1, n, 1, 0);
    }
  }

  /** The remainder is the unique one in [0, n). */
  lemma ModUnique(x: int, n: int, q: int, r: int)
    requires n > 0 && 0 <= r < n && x == q * n + r
    ensures x % n == r
  {
    var q' := x / n;
    var r' := x % n;
    assert (q - q') * n == r' - r;
    JavaNum.MulAwayFromZero(q - q', n);
  }

  /**
   * `setPosition(x, y)`: put the cursor on the entry of section (1, 1)
   * under the pointer, if any; otherwise leave it.
   */
  function SetPosition(m: Menu, x: int, y: int): (r: Menu)
    requires Valid(m)
    ensures Valid(r) && r == m.(position := r.position)
    ensures r.position != m.position ==>
              0 <= r.position < |m.gui.sections[1][1]| && Gui.Touches(m.gui, 1, 1, r.position, x, y)
    ensures (forall k :: 0 <= k < |m.gui.sections[1][1]| ==> !Gui.Touches(m.gui, 1, 1, k, x, y)) ==> r == m
    ensures r.position == m.position || forall k :: 0 <= k < r.position ==> !Gui.Touches(m.gui, 1, 1, k, x, y)
  {
    var pos := Gui.TouchesElement(m.gui, 1, 1, x, y);
    if pos != -1 then m.(position := pos) else m
  }

  /** `select()`: the cursor, unchanged. */
  function Select(m: Menu): int {
    m.position
  }

  /**
   * Once the menu is rendered, pointing can only move the cursor onto an
   * entry, and pointing at an entry (and at no entry above it) selects it.
   */
  lemma PointerSelects(m: Menu, rendered: Menu, x: int, y: int, k: int)
    requires Valid(rendered) && OnEntry(rendered) && Count(rendered) == |rendered.gui.sections[1][1]|
    requires 0 <= k < Count(rendered) && Gui.Touches(rendered.gui, 1, 1, k, x, y)
    requires forall e :: 0 <= e < k ==> !Gui.Touches(rendered.gui, 1, 1, e, x, y)
    ensures OnEntry(SetPosition(rendered, x, y))
    ensures Select(SetPosition(rendered, x, y)) == k
  {
  }
}
