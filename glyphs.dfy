/** The glyph table of the particle field and the colours the particles are drawn in. */
module Glyphs {

  /** The single heart glyph, U+2764 HEAVY BLACK HEART. */
  const Heart: string := "\U{2764}"

  /** The table an ambient particle draws its text from: seven phrases, then eight hearts. */
  const LoveMessages: seq<string> := [
    "I'm Sorry", "Forgive Me", "I Miss You", "My Mistake", "I Love You", "Please", "My Everything",
    Heart, Heart, Heart, Heart, Heart, Heart, Heart, Heart
  ]

  /** A colour `rgba(red, green, blue, alpha)` as the drawing surface receives it. */
  datatype Color = Rgba(red: nat, green: nat, blue: nat, alpha: real)

  /** Fill colour of a heart glyph with the given opacity (rich red/pink). */
  function HeartColor(opacity: real): Color { Rgba(220, 80, 80, opacity) }

  /** Fill colour of a text glyph with the given opacity (dark gold/brown). */
  function TextColor(opacity: real): Color { Rgba(120, 100, 90, opacity) }

  /**
   * A uniform draw in [0, 1), as `Math.random()` returns. It lives here, in the module
   * every other one imports, because the glyph index and both particle constructors use it.
   */
  predicate IsUnitDraw(r: real) { 0.0 <= r < 1.0 }

  /**
   * `Math.floor(r * loveMessages.length)`: the table index chosen by a uniform draw.
   * It always lands inside the table, and it picks a heart exactly when it is 7 or more.
   */
  function GlyphIndex(r: real): (k: nat)
    requires IsUnitDraw(r)
    ensures k < |LoveMessages|
    ensures LoveMessages[k] == Heart <==> k >= 7
  {
    var k := (r * |LoveMessages| as real).Floor;
    assert 0 <= k < 15;
    assert LoveMessages[k] == Heart <==> k >= 7 by { HeartsAreTheTail(k); }
    k
  }

  /** The seven phrases are not the heart; the eight entries after them are. */
  lemma HeartsAreTheTail(k: nat)
    requires k < |LoveMessages|
    ensures LoveMessages[k] == Heart <==> k >= 7
  {
    if k < 7 {
      assert |LoveMessages[k]| > 1;
    }
  }
}
