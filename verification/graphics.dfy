/**
 * The two value types the renderers pass around: a `Drawable` leaf (an
 * image, a text label, a frame of an animation), of which the engine only
 * ever asks the pixel width and height, and the `VisibleElement` that pairs
 * a drawable with a screen position and the height it stands at.
 */
module Graphics {

  datatype Drawable = Drawable(name: string, width: int, height: int)

  datatype VisibleElement<D> = VisibleElement(drawable: D, x: int, y: int, height: int)
}
