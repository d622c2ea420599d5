/**
 * `VarBox`: the tappable "var" box whose texture cycles through four
 * colours. `currentColor` is an index into `colorsArray`; `changeImage`
 * advances it, wrapping to 0 when it reaches the array's length, and shows
 * the texture of the new colour.
 */
module Boxes {

  /** The texture image of a colour: `"\(colour)Var.png"`. */
  function VarTexture(colour: string): string
  {
    colour + "Var.png"
  }

  /** One step of `changeImage` on the index: increment, and wrap when it equals `count`. */
  function NextColor(current: nat, count: nat): (next: nat)
    requires current < count
    ensures next < count
    ensures next == (current + 1) % count
  {
    if current + 1 == count then 0 else current + 1
  }

  /** The index after `taps` consecutive calls of `changeImage`, starting from `current`. */
  function ColorAfter(current: nat, count: nat, taps: nat): (r: nat)
    requires current < count
    ensures r < count
  {
    if taps == 0 then current else NextColor(ColorAfter(current, count, taps - 1), count)
  }

  /** The number of colours of the var box, `colorsArray.count`. */
  const ColorCount := 4

  /** `taps` calls advance the index by `taps` positions around the four-colour cycle. */
  lemma {:induction false} ColorAfterIsRotation(current: nat, taps: nat)
    requires current < ColorCount
    ensures ColorAfter(current, ColorCount, taps) == (current + taps) % ColorCount
  {
    if taps > 0 {
      ColorAfterIsRotation(current, taps - 1);
      var before := current + taps - 1;
      assert (before % ColorCount + 1) % ColorCount == (before + 1) % ColorCount;
    }
  }

  /** Four consecutive calls bring the index back to where it started. */
  lemma FullCycleRestores(current: nat)
    requires current < ColorCount
    ensures ColorAfter(current, ColorCount, ColorCount) == current
  {
    ColorAfterIsRotation(current, ColorCount);
  }

  class VarBox {
    const colorsArray: seq<string> := ["red", "green", "orange", "purple"]
    var currentColor: nat
    /** The image its material shows. */
    var texture: string

    /** The index is in bounds for `colorsArray` and the texture is that colour's. */
    ghost predicate Valid()
      reads this
    {
      && currentColor < |colorsArray|
      && texture == VarTexture(colorsArray[currentColor])
    }

    constructor ()
      ensures Valid()
      ensures currentColor == 0 && texture == "redVar.png"
    {
      currentColor := 0;
      texture := VarTexture("red");
    }

    method ChangeImage()
      requires Valid()
      modifies this
      ensures Valid()
      ensures currentColor == NextColor(old(currentColor), |colorsArray|)
      ensures currentColor == (old(currentColor) + 1) % ColorCount
      ensures texture == VarTexture(colorsArray[currentColor])
    {
      currentColor := currentColor + 1;
      if currentColor == |colorsArray| {
        currentColor := 0;
      }
      texture := VarTexture(colorsArray[currentColor]);
    }
  }

  /** Four consecutive taps on the var box bring back its colour and texture. */
  method FourTaps(box: VarBox)
    requires box.Valid()
    modifies box
    ensures box.Valid()
    ensures box.currentColor == old(box.currentColor) && box.texture == old(box.texture)
  {
    ghost var start := box.currentColor;
    box.ChangeImage();
    box.ChangeImage();
    box.ChangeImage();
    box.ChangeImage();
    assert box.currentColor == ColorAfter(start, ColorCount, ColorCount);
    FullCycleRestores(start);
  }
}
