/**
 * The slide transition's `getTransformValue`: the CSS transform for a
 * visible element, and for a hidden one the offset that depends on the
 * direction. The direction is a string prop; anything but the four known
 * names behaves like 'up'.
 */
module SlideTransition {
  const DefaultDistance := "100%"
  const DefaultDirection := "up"

  /** `getTransformValue(isVisible, direction)` with the component's `distance`. */
  function TransformValue(isVisible: bool, direction: string, distance: string): (t: string)
    ensures isVisible ==> t == "translate(0, 0)"
    ensures !isVisible && direction == "down" ==> t == "translate(0, -" + distance + ")"
    ensures !isVisible && direction == "left" ==> t == "translate(" + distance + ", 0)"
    ensures !isVisible && direction == "right" ==> t == "translate(-" + distance + ", 0)"
    ensures !isVisible && direction !in ["down", "left", "right"] ==> t == "translate(0, " + distance + ")"
  {
    if isVisible then "translate(0, 0)"
    else if direction == "up" then "translate(0, " + distance + ")"
    else if direction == "down" then "translate(0, -" + distance + ")"
    else if direction == "left" then "translate(" + distance + ", 0)"
    else if direction == "right" then "translate(-" + distance + ", 0)"
    else "translate(0, " + distance + ")"
  }

  /** Visible elements sit at the origin whichever way they slide. */
  lemma VisibleIgnoresDirection(d1: string, d2: string, distance: string)
    ensures TransformValue(true, d1, distance) == TransformValue(true, d2, distance)
  {
  }

  /** An unknown direction slides exactly like 'up'. */
  lemma UnknownDirectionIsUp(direction: string, visible: bool, distance: string)
    requires direction !in ["up", "down", "left", "right"]
    ensures TransformValue(visible, direction, distance) == TransformValue(visible, DefaultDirection, distance)
  {
  }

  /** Opposite directions give opposite offsets: the same distance with a '-' in front of one of them. */
  lemma OppositeDirections(distance: string)
    ensures TransformValue(false, "down", distance) == "translate(0, " + ("-" + distance) + ")"
    ensures TransformValue(false, "up", distance) == "translate(0, " + distance + ")"
    ensures TransformValue(false, "right", distance) == "translate(" + ("-" + distance) + ", 0)"
    ensures TransformValue(false, "left", distance) == "translate(" + distance + ", 0)"
  {
  }

  /** With the defaults, a hidden element waits one full height below its place. */
  lemma DefaultsSlideFromBelow()
    ensures TransformValue(false, DefaultDirection, DefaultDistance) == "translate(0, 100%)"
  {
  }
}
