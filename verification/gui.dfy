/**
 * `GUI`: the overlay drawn on top of the game and the menus. The screen is
 * split into a 3x3 grid of sections, indexed (column, row); each section
 * holds a queue of drawables that are stacked one under the other (upward
 * in the bottom row), one pixel apart.
 */
module Gui {
  import opened JavaNum
  import opened Graphics

  type Element = VisibleElement<Drawable>

  /** `drawables.get(i).get(j)` is `sections[i][j]`. */
  datatype Gui = Gui(sections: seq<seq<seq<Drawable>>>, padding: int, width: int, height: int)

  /** A section coordinate the source's nested lists can index. */
  predicate Section(i: int, j: int) {
    0 <= i < 3 && 0 <= j < 3
  }

  /** Three columns of three sections each, and a padding that `setPadding` keeps non-negative. */
  predicate Valid(g: Gui) {
    |g.sections| == 3 && (forall i :: 0 <= i < 3 ==> |g.sections[i]| == 3) && g.padding >= 0
  }

  /** The constructor: nine empty sections and no padding. */
  function NewGui(width: int, height: int): (g: Gui)
    ensures Valid(g) && Size(g) == 0
    ensures g.width == width && g.height == height && g.padding == 0
    ensures forall i, j :: Section(i, j) ==> g.sections[i][j] == []
  {
    var g := Gui([[[], [], []], [[], [], []], [[], [], []]], 0, width, height);
    assert SizeFrom(g, 9) == 0;
    assert SizeFrom(g, 0) == 0;
    g
  }

  /** `setPadding(p)`: a negative padding is ignored. */
  function SetPadding(g: Gui, p: int): (r: Gui)
    requires Valid(g)
    ensures Valid(r) && r.padding >= 0
    ensures p < 0 ==> r == g
    ensures p >= 0 ==> r.padding == p && r == g.(padding := r.padding)
  {
    if p < 0 then g else g.(padding := p)
  }

  /** The section at position `n` of the render order: column `n / 3`, row `n % 3`. */
  function At(g: Gui, n: int): seq<Drawable>
    requires Valid(g) && 0 <= n < 9
  {
    g.sections[n / 3][n % 3]
  }

  /** The number of drawables in the sections from position `n` of the render order on. */
  function SizeFrom(g: Gui, n: int): (c: nat)
    requires Valid(g) && 0 <= n <= 9
    decreases 9 - n
  {
    if n == 9 then 0 else |At(g, n)| + SizeFrom(g, n + 1)
  }

  /** `size()`: the number of drawables in all nine sections, which is what `render()` emits. */
  function Size(g: Gui): (c: nat)
    requires Valid(g)
    ensures c == |Render(g)|
  {
    RenderFromLength(g, 0);
    SizeFrom(g, 0)
  }

  /** The position of section (i, j) in the render order. */
  function Index(i: int, j: int): int { i * 3 + j }

  /** Replacing one section changes the count by the change in that section's length. */
  lemma {:induction false} SizeFromReplace(g: Gui, i: int, j: int, items: seq<Drawable>, n: int)
    requires Valid(g) && Section(i, j) && 0 <= n <= 9
    ensures var g' := g.(sections := g.sections[i := g.sections[i][j := items]]);
            Valid(g') &&
            SizeFrom(g', n) == SizeFrom(g, n) + (if n <= Index(i, j) then |items| - |g.sections[i][j]| else 0)
    decreases 9 - n
  {
    var g' := g.(sections := g.sections[i := g.sections[i][j := items]]);
    if n < 9 {
      SizeFromReplace(g, i, j, items, n + 1);
      if n == Index(i, j) {
        assert At(g', n) == items;
      } else {
        assert n / 3 != i || n % 3 != j;
        assert At(g', n) == At(g, n);
      }
    }
  }

  /** Section (i, j) replaced by `items`; the others are unchanged. */
  function Replace(g: Gui, i: int, j: int, items: seq<Drawable>): (r: Gui)
    requires Valid(g) && Section(i, j)
    ensures Valid(r) && Size(r) == Size(g) - |g.sections[i][j]| + |items|
    ensures r.sections[i][j] == items
    ensures forall a, b :: Section(a, b) && (a, b) != (i, j) ==> r.sections[a][b] == g.sections[a][b]
    ensures r.padding == g.padding && r.width == g.width && r.height == g.height
  {
    SizeFromReplace(g, i, j, items, 0);
    var column := g.sections[i][j := items];
    var r := g.(sections := g.sections[i := column]);
    forall a, b | Section(a, b) && (a, b) != (i, j)
      ensures r.sections[a][b] == g.sections[a][b]
    {
      if a == i {
        assert r.sections[a] == column;
      } else {
        assert r.sections[a] == g.sections[a];
      }
    }
    r
  }

  /** Replacing a section twice keeps only the second contents. */
  lemma ReplaceTwice(g: Gui, i: int, j: int, items: seq<Drawable>, items': seq<Drawable>)
    requires Valid(g) && Section(i, j)
    ensures Replace(Replace(g, i, j, items), i, j, items') == Replace(g, i, j, items')
  {
    var r := Replace(g, i, j, items);
    assert r.sections[i][j := items'] == g.sections[i][j := items'];
  }

  /** Replacing a section by its own contents changes nothing. */
  lemma ReplaceSame(g: Gui, i: int, j: int)
    requires Valid(g) && Section(i, j)
    ensures Replace(g, i, j, g.sections[i][j]) == g
  {
    assert g.sections[i][j := g.sections[i][j]] == g.sections[i];
    assert g.sections[i := g.sections[i]] == g.sections;
  }

  /** `addToSection(d, i, j)`: append to one section; the others are unchanged. */
  function AddToSection(g: Gui, d: Drawable, i: int, j: int): (r: Gui)
    requires Valid(g) && Section(i, j)
    ensures Valid(r) && Size(r) == Size(g) + 1
    ensures r.sections[i][j] == g.sections[i][j] + [d]
    ensures forall a, b :: Section(a, b) && (a, b) != (i, j) ==> r.sections[a][b] == g.sections[a][b]
    ensures r.padding == g.padding && r.width == g.width && r.height == g.height
  {
    Replace(g, i, j, g.sections[i][j] + [d])
  }

  /** `clearSection(i, j)`: empty one section; the others are unchanged. */
  function ClearSection(g: Gui, i: int, j: int): (r: Gui)
    requires Valid(g) && Section(i, j)
    ensures Valid(r) && Size(r) == Size(g) - |g.sections[i][j]|
    ensures r.sections[i][j] == []
    ensures forall a, b :: Section(a, b) && (a, b) != (i, j) ==> r.sections[a][b] == g.sections[a][b]
    ensures r.padding == g.padding && r.width == g.width && r.height == g.height
  {
    Replace(g, i, j, [])
  }

  /**
   * `getRealX(i, d)`: the left column is indented by the padding, the
   * middle one centres the drawable on the screen's middle, and the right
   * one ends the padding short of the right edge.
   */
  function RealX(g: Gui, i: int, d: Drawable): (x: int)
    requires Valid(g) && 0 <= i < 3
    ensures i == 0 ==> x == g.padding
    ensures i == 1 ==> x == Div(g.width, 2) - Div(d.width, 2)
    ensures i == 2 ==> x + d.width + g.padding == g.width
  {
    DivExact(g.width, 2);
    var base := Div(i * g.width, 2);
    if i == 0 then base + g.padding
    else if i == 1 then base - Div(d.width, 2)
    else base - (d.width + g.padding)
  }

  /**
   * `getRealY(j, offset, d)`: the top row stacks downward from the
   * padding, the middle row stacks bottoms downward from the screen's
   * middle, and the bottom row stacks upward from the padding above the
   * bottom edge.
   */
  function RealY(g: Gui, j: int, offset: int, d: Drawable): (y: int)
    requires Valid(g) && 0 <= j < 3
    ensures j == 0 ==> y == g.padding + offset
    ensures j == 1 ==> y + d.height == Div(g.height, 2) + offset
    ensures j == 2 ==> y + d.height + offset + g.padding == g.height
  {
    DivExact(g.height, 2);
    var base := Div(j * g.height, 2);
    if j == 0 then base + offset + g.padding
    else if j == 1 then base + offset - d.height
    else base - offset - d.height - g.padding
  }

  /** The vertical offset of the `k`-th drawable of a section: the heights above it plus one pixel each. */
  function Stack(items: seq<Drawable>, k: int): int
    requires 0 <= k <= |items|
  {
    if k == 0 then 0 else Stack(items, k - 1) + items[k - 1].height + 1
  }

  /** Dropping the first drawable shifts every offset by its height plus one. */
  lemma {:induction false} StackShift(items: seq<Drawable>, k: int)
    requires 0 <= k < |items|
    ensures Stack(items, k + 1) == items[0].height + 1 + Stack(items[1..], k)
    decreases k
  {
    if k > 0 {
      StackShift(items, k - 1);
      assert items[1..][k - 1] == items[k];
    }
  }

  /**
   * The elements one section renders, the running offset starting at
   * `offset`: the `k`-th is its drawable at `getRealX` and at `getRealY`
   * of the offset of everything above it, at height zero.
   */
  function SectionElements(g: Gui, i: int, j: int, items: seq<Drawable>, offset: int): (r: seq<Element>)
    requires Valid(g) && Section(i, j)
    ensures |r| == |items|
    ensures forall k :: 0 <= k < |items| ==>
              r[k] == VisibleElement(items[k], RealX(g, i, items[k]), RealY(g, j, offset + Stack(items, k), items[k]), 0)
    decreases |items|
  {
    if |items| == 0 then []
    else
      var d := items[0];
      var rest := SectionElements(g, i, j, items[1..], offset + d.height + 1);
      var r := [VisibleElement(d, RealX(g, i, d), RealY(g, j, offset, d), 0)] + rest;
      assert forall k :: 1 <= k < |items| ==> r[k] == rest[k - 1];
      forall k | 1 <= k < |items|
        ensures offset + d.height + 1 + Stack(items[1..], k - 1) == offset + Stack(items, k)
      {
        StackShift(items, k - 1);
      }
      r
  }

  /** Elements of the sections from position `n` of the render order on. */
  function RenderFrom(g: Gui, n: int): seq<Element>
    requires Valid(g) && 0 <= n <= 9
    decreases 9 - n
  {
    if n == 9 then [] else SectionElements(g, n / 3, n % 3, At(g, n), 0) + RenderFrom(g, n + 1)
  }

  lemma {:induction false} RenderFromLength(g: Gui, n: int)
    requires Valid(g) && 0 <= n <= 9
    ensures |RenderFrom(g, n)| == SizeFrom(g, n)
    decreases 9 - n
  {
    if n < 9 {
      RenderFromLength(g, n + 1);
    }
  }

  /**
   * `render()`: every section in column-major order (column 0 top to
   * bottom, then column 1, then column 2), each in insertion order.
   */
  function Render(g: Gui): (r: seq<Element>)
    requires Valid(g)
    ensures forall k :: 0 <= k < |r| ==> r[k].height == 0
  {
    RenderHeights(g, 0);
    RenderFrom(g, 0)
  }

  lemma {:induction false} RenderHeights(g: Gui, n: int)
    requires Valid(g) && 0 <= n <= 9
    ensures forall k :: 0 <= k < |RenderFrom(g, n)| ==> RenderFrom(g, n)[k].height == 0
    decreases 9 - n
  {
    if n < 9 {
      RenderHeights(g, n + 1);
      var s := SectionElements(g, n / 3, n % 3, At(g, n), 0);
      assert RenderFrom(g, n) == s + RenderFrom(g, n + 1);
    }
  }

  /**
   * Consecutive drawables of a section are one pixel apart: downward in the
   * top and middle rows, upward in the bottom row.
   */
  lemma SectionStacking(g: Gui, i: int, j: int, items: seq<Drawable>, k: int)
    requires Valid(g) && Section(i, j) && 0 <= k && k + 1 < |items|
    ensures var r := SectionElements(g, i, j, items, 0);
            (j == 0 ==> r[k + 1].y == r[k].y + items[k].height + 1) &&
            (j == 1 ==> r[k + 1].y + items[k + 1].height == r[k].y + items[k].height + items[k].height + 1) &&
            (j == 2 ==> r[k + 1].y + items[k + 1].height + 1 == r[k].y)
  {
    ElementY(g, i, j, items, k);
    ElementY(g, i, j, items, k + 1);
    assert Stack(items, k + 1) == Stack(items, k) + items[k].height + 1;
  }

  /** The `k`-th element of a section starting at offset zero sits at `getRealY` of its stack offset. */
  lemma ElementY(g: Gui, i: int, j: int, items: seq<Drawable>, k: int)
    requires Valid(g) && Section(i, j) && 0 <= k < |items|
    ensures SectionElements(g, i, j, items, 0)[k].y == RealY(g, j, Stack(items, k), items[k])
  {
  }

  /** The point lies strictly inside the drawable placed at (x, y). */
  predicate Inside(px: int, py: int, x: int, y: int, d: Drawable) {
    px > x && px < x + d.width && py > y && py < y + d.height
  }

  /** The `k`-th drawable of section (i, j) strictly contains the point. */
  predicate Touches(g: Gui, i: int, j: int, k: int, px: int, py: int)
    requires Valid(g) && Section(i, j) && 0 <= k < |g.sections[i][j]|
  {
    var items := g.sections[i][j];
    Inside(px, py, RealX(g, i, items[k]), RealY(g, j, Stack(items, k), items[k]), items[k])
  }

  /** The loop of `touchesElement` from the `num`-th drawable on, at running offset `offset`. */
  function TouchesFrom(g: Gui, i: int, j: int, items: seq<Drawable>, num: int, offset: int, px: int, py: int): (r: int)
    requires Valid(g) && Section(i, j) && 0 <= num <= |items| && offset == Stack(items, num)
    ensures r == -1 || num <= r < |items|
    ensures r >= num ==> Inside(px, py, RealX(g, i, items[r]), RealY(g, j, Stack(items, r), items[r]), items[r])
    ensures r >= num ==> forall k :: num <= k < r ==>
              !Inside(px, py, RealX(g, i, items[k]), RealY(g, j, Stack(items, k), items[k]), items[k])
    ensures r == -1 ==> forall k :: num <= k < |items| ==>
              !Inside(px, py, RealX(g, i, items[k]), RealY(g, j, Stack(items, k), items[k]), items[k])
    decreases |items| - num
  {
    if num == |items| then -1
    else
      var d := items[num];
      if Inside(px, py, RealX(g, i, d), RealY(g, j, offset, d), d) then num
      else TouchesFrom(g, i, j, items, num + 1, offset + d.height + 1, px, py)
  }

  /**
   * `touchesElement(i, j, x, y)`: the index of the first drawable of the
   * section whose open rectangle contains the point, or -1 when none does.
   */
  function TouchesElement(g: Gui, i: int, j: int, px: int, py: int): (r: int)
    requires Valid(g) && Section(i, j)
    ensures -1 <= r < |g.sections[i][j]|
    ensures r >= 0 ==> Touches(g, i, j, r, px, py) && forall k :: 0 <= k < r ==> !Touches(g, i, j, k, px, py)
    ensures r == -1 <==> forall k :: 0 <= k < |g.sections[i][j]| ==> !Touches(g, i, j, k, px, py)
  {
    TouchesFrom(g, i, j, g.sections[i][j], 0, 0, px, py)
  }

  /**
   * Hit testing agrees with rendering: the drawable `touchesElement`
   * reports is exactly where `render()` draws it.
   */
  lemma TouchMatchesRender(g: Gui, i: int, j: int, px: int, py: int)
    requires Valid(g) && Section(i, j)
    ensures var k := TouchesElement(g, i, j, px, py);
            var s := SectionElements(g, i, j, g.sections[i][j], 0);
            k >= 0 ==> Inside(px, py, s[k].x, s[k].y, s[k].drawable)
  {
  }
}
