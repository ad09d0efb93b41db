/** backend/api/utils.py: `shopping_cart_to_pdf`, as the sequence of
    drawing commands it issues on a fresh canvas. Fonts, glyphs and the PDF
    bytes themselves are not part of this model. */
module Pdf {
  import opened Common
  import opened PyText
  import opened RecipeModels

  /** A canvas call: choose a font and size, draw text with its baseline
      starting at (x, y) in points from the bottom-left corner, close the
      page, write the document. */
  datatype PdfOp =
    | SetFont(font: string, size: int)
    | DrawString(x: int, y: int, text: string)
    | ShowPage
    | Save

  /** One group of the shopping-cart aggregation: an ingredient and the
      summed amount. */
  datatype CartItem = CartItem(ingredient: IngredientId, amount: int)

  const FontName: string := "ArialRegular"
  const Heading: string := "Список покупок: "

  /** The text of the row for `amount` of `ingredient`. */
  function RowText(ingredient: Ingredient, amount: int): string {
    " - " + ingredient.name + ": " + DecimalString(amount) + ", " + ingredient.measurementUnit
  }

  /** The baseline of row `i`: `row_step` starts at 750 and drops by 20
      after each row. */
  function RowY(i: int): int {
    750 - 20 * i
  }

  predicate Known(cart: seq<CartItem>, ingredients: map<IngredientId, Ingredient>) {
    forall i :: 0 <= i < |cart| ==> cart[i].ingredient in ingredients
  }

  /** The rows, one per cart item, in the cart's order. */
  function RowOps(cart: seq<CartItem>, ingredients: map<IngredientId, Ingredient>): (r: seq<PdfOp>)
    requires Known(cart, ingredients)
    ensures |r| == |cart|
  {
    seq(|cart|, i requires 0 <= i < |cart| =>
      DrawString(15, RowY(i), RowText(ingredients[cart[i].ingredient], cart[i].amount)))
  }

  /** The calls before the first row. */
  const HeaderOps: seq<PdfOp> := [SetFont(FontName, 32), DrawString(15, 800, Heading), SetFont(FontName, 15)]

  /** Every call `shopping_cart_to_pdf` makes on its canvas, in order. */
  function PdfOps(cart: seq<CartItem>, ingredients: map<IngredientId, Ingredient>): seq<PdfOp>
    requires Known(cart, ingredients)
  {
    HeaderOps + RowOps(cart, ingredients) + [ShowPage, Save]
  }

  /** A canvas, as the record of the calls made on it. */
  class Canvas {
    var ops: seq<PdfOp>

    constructor ()
      ensures ops == []
    {
      ops := [];
    }

    method SetFontCall(font: string, size: int)
      modifies this
      ensures ops == old(ops) + [SetFont(font, size)]
    {
      ops := ops + [SetFont(font, size)];
    }

    method DrawStringCall(x: int, y: int, text: string)
      modifies this
      ensures ops == old(ops) + [DrawString(x, y, text)]
    {
      ops := ops + [DrawString(x, y, text)];
    }

    method ShowPageCall()
      modifies this
      ensures ops == old(ops) + [ShowPage]
    {
      ops := ops + [ShowPage];
    }

    method SaveCall()
      modifies this
      ensures ops == old(ops) + [Save]
    {
      ops := ops + [Save];
    }
  }

  /** `shopping_cart_to_pdf`: the heading, then one row per cart item with
      `row_step` dropping by 20 each time, then one page break and the save.
      `Ingredient.objects.get` needs every item's ingredient to exist. */
  method ShoppingCartToPdf(cart: seq<CartItem>, ingredients: map<IngredientId, Ingredient>)
    returns (pdf: Canvas)
    requires Known(cart, ingredients)
    ensures fresh(pdf)
    ensures pdf.ops == PdfOps(cart, ingredients)
  {
    pdf := new Canvas();
    pdf.SetFontCall(FontName, 32);
    pdf.DrawStringCall(15, 800, Heading);
    pdf.SetFontCall(FontName, 15);
    var rowStep := 750;
    var i := 0;
    while i < |cart|
      invariant 0 <= i <= |cart|
      invariant rowStep == RowY(i)
      invariant pdf.ops == HeaderOps + RowOps(cart[..i], ingredients)
    {
      var ingredient := ingredients[cart[i].ingredient];
      var amount := cart[i].amount;
      pdf.DrawStringCall(15, rowStep, RowText(ingredient, amount));
      assert RowOps(cart[..i + 1], ingredients) == RowOps(cart[..i], ingredients) + [DrawString(15, RowY(i), RowText(ingredient, amount))];
      rowStep := rowStep - 20;
      i := i + 1;
    }
    assert cart[..i] == cart;
    pdf.ShowPageCall();
    pdf.SaveCall();
  }

  /** The heading is drawn at (15, 800) in size 32 before anything else is
      drawn, and every later text call is a row drawn in size 15. */
  lemma PdfHeadingFirst(cart: seq<CartItem>, ingredients: map<IngredientId, Ingredient>)
    requires Known(cart, ingredients)
    ensures var ops := PdfOps(cart, ingredients);
            && ops[0] == SetFont(FontName, 32)
            && ops[1] == DrawString(15, 800, Heading)
            && ops[2] == SetFont(FontName, 15)
            && forall j :: 2 < j < |ops| ==> !ops[j].SetFont? && (ops[j].DrawString? ==> ops[j].y <= 750)
  {
    var ops := PdfOps(cart, ingredients);
    forall j | 2 < j < |ops| ensures !ops[j].SetFont? && (ops[j].DrawString? ==> ops[j].y <= 750) {
      if j < 3 + |cart| {
        assert ops[j] == RowOps(cart, ingredients)[j - 3];
      }
    }
  }

  /** Row `i` is the text of cart item `i`, drawn at x = 15 and
      y = 750 - 20 i: exactly one row per item, in the cart's order. */
  lemma PdfRowAt(cart: seq<CartItem>, ingredients: map<IngredientId, Ingredient>, i: int)
    requires Known(cart, ingredients) && 0 <= i < |cart|
    ensures var ops := PdfOps(cart, ingredients);
            |ops| == |cart| + 5 &&
            ops[3 + i] == DrawString(15, 750 - 20 * i, RowText(ingredients[cart[i].ingredient], cart[i].amount))
  {
    assert PdfOps(cart, ingredients)[3 + i] == RowOps(cart, ingredients)[i];
  }

  /** The document has one page: one `showPage`, after the last row and
      just before the save. */
  lemma PdfOnePage(cart: seq<CartItem>, ingredients: map<IngredientId, Ingredient>, j: int)
    requires Known(cart, ingredients)
    requires 0 <= j < |PdfOps(cart, ingredients)|
    ensures PdfOps(cart, ingredients)[j] == ShowPage <==> j == |cart| + 3
  {
    var ops := PdfOps(cart, ingredients);
    if 3 <= j < 3 + |cart| {
      assert ops[j] == RowOps(cart, ingredients)[j - 3];
    }
  }

  /** As there is no page break, rows from the 39th on are drawn below the
      bottom edge of the page (y < 0), outside the visible area. */
  lemma PdfRowsLeavePage(cart: seq<CartItem>, ingredients: map<IngredientId, Ingredient>, i: int)
    requires Known(cart, ingredients) && 0 <= i < |cart|
    ensures PdfOps(cart, ingredients)[3 + i].DrawString?
    ensures PdfOps(cart, ingredients)[3 + i].y < 0 <==> i >= 38
  {
    PdfRowAt(cart, ingredients, i);
  }

  /** The amount in a row reads back as the item's amount: the text is
      " - ", the name, ": ", the decimal amount, ", " and the unit. */
  lemma RowTextShowsAmount(ingredient: Ingredient, amount: int)
    ensures var t := RowText(ingredient, amount);
            var start := 3 + |ingredient.name| + 2;
            var end := |t| - 2 - |ingredient.measurementUnit|;
            0 <= start <= end <= |t| && PyInt(t[start..end]) == Some(amount)
  {
    var a := " - " + ingredient.name + ": ";
    var d := DecimalString(amount);
    var b := ", " + ingredient.measurementUnit;
    var t := RowText(ingredient, amount);
    assert t == a + d + b;
    assert |a| == 3 + |ingredient.name| + 2;
    assert (a + d + b)[|a|..|a| + |d|] == d;
    PyIntReadsDecimal(amount, [], []);
    assert [] + d + [] == d;
  }
}
