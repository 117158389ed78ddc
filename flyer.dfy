/** The integer and string logic of `render_letter` in the flyer generator: where the
    wrapped bullet lines, the QR blocks and their centred labels go on a US Letter page
    at 300 DPI, which URL text is shown, when the second QR block appears, and the names
    of the files written. Drawing itself is modelled as the list of text lines placed,
    each with the pixel position it is drawn at; widths of drawn strings are the
    arbitrary functions `bodyWidth` and `smallWidth`, one per font. */
module Flyer {
  import opened PyStr
  import opened Wrap

  datatype Option<T> = None | Some(value: T)

  // Page and layout sizes in pixels, as the float expressions of the script evaluate.
  const W: int := 2550            // int(8.5 * 300)
  const H: int := 3300            // int(11.0 * 300)
  const Pad: int := 180           // int(0.6 * 300)
  const HeaderH: int := 480       // int(1.6 * 300)
  const CtaGap: int := 165        // int(0.55 * 300)
  const BulletIndent: int := 75   // int(0.25 * 300)
  const LineStep: int := 129      // int(0.43 * 300)
  const BulletGap: int := 30      // int(0.1 * 300)
  const QrSizePx: int := 960      // int(3.2 * 300)
  const QrTopGap: int := 210      // int(0.7 * 300)
  const LabelGap: int := 45       // int(0.15 * 300)
  const LabelStep: int := 96      // int(0.32 * 300)
  const UrlStep: int := 90        // int(0.30 * 300)
  const Qr2SizePx: int := 615     // int(2.05 * 300)
  const Qr2Gap: int := 105        // int(0.35 * 300)
  const Label2Gap: int := 36      // int(0.12 * 300)
  const Label2Step: int := 90     // int(0.30 * 300)

  /** The width bullets are wrapped to: the page less both margins and the QR code. */
  const BulletMaxW: int := W - 2 * Pad - QrSizePx

  /** The three bullets every flyer carries. */
  const Bullets: seq<string> := [
    "Bring: gloves (optional), sturdy shoes. We'll take care of the plan.",
    "Do: pick up litter, fill 1\U{2013}2 bags, take quick before/after photos.",
    "Post: comment on the linked GitHub issue to claim the cleanup and share results."
  ]

  /** `FlyerSpec`: the optional fields are `str | None`. */
  datatype FlyerSpec = FlyerSpec(
    slug: string,
    title: string,
    subtitle: string,
    primaryUrl: string,
    primaryLabel: string,
    secondaryUrl: Option<string>,
    secondaryLabel: Option<string>)

  /** A line of text drawn with its top-left corner at `(x, y)`. */
  datatype Placed = Placed(x: int, y: int, text: string)

  /** The optional second QR code: its top-left corner and its centred label lines. */
  datatype SecondaryBlock = SecondaryBlock(x: int, y: int, caption: seq<Placed>)

  /** What `render_letter` lays out on the page, and the two paths it returns. */
  datatype Letter = Letter(
    bullets: seq<Placed>,
    qrX: int,
    qrY: int,
    caption: seq<Placed>,
    url: seq<Placed>,
    secondary: Option<SecondaryBlock>,
    png: string,
    pdf: string)

  function Texts(rows: seq<Placed>): seq<string> {
    seq(|rows|, k requires 0 <= k < |rows| => rows[k].text)
  }

  // ---------------------------------------------------------------- bullets

  /** The wrapped lines of one bullet as drawn: a bullet mark before the first, an
      indent of two spaces before the others. */
  function Marked(lines: seq<string>): seq<string> {
    seq(|lines|, li requires 0 <= li < |lines| => (if li == 0 then "\U{2022} " else "  ") + lines[li])
  }

  /** How many lines the bullets wrap to, all together. */
  function TotalLines(bullets: seq<string>, bodyWidth: string -> int): nat {
    if bullets == [] then 0
    else TotalLines(bullets[..|bullets| - 1], bodyWidth) + |WrapLines(Split(bullets[|bullets| - 1]), bodyWidth, BulletMaxW)|
  }

  /** Every line the bullets are drawn as, in order. */
  function BulletText(bullets: seq<string>, bodyWidth: string -> int): (r: seq<string>)
    ensures |r| == TotalLines(bullets, bodyWidth)
  {
    if bullets == [] then []
    else BulletText(bullets[..|bullets| - 1], bodyWidth) + Marked(WrapLines(Split(bullets[|bullets| - 1]), bodyWidth, BulletMaxW))
  }

  /** The inner bullet loop: the lines of one bullet, marked, at the indented left
      margin, one line step apart from `y0` on. */
  method PlaceBulletLines(lines: seq<string>, y0: int) returns (rows: seq<Placed>, y: int)
    ensures Texts(rows) == Marked(lines) && y == y0 + LineStep * |lines|
    ensures forall k :: 0 <= k < |rows| ==> rows[k].x == Pad + BulletIndent && rows[k].y == y0 + LineStep * k
  {
    rows := [];
    y := y0;
    for li := 0 to |lines|
      invariant |rows| == li && y == y0 + LineStep * li
      invariant Texts(rows) == Marked(lines)[..li]
      invariant forall k :: 0 <= k < li ==> rows[k].x == Pad + BulletIndent && rows[k].y == y0 + LineStep * k
    {
      var prefix := if li == 0 then "\U{2022} " else "  ";
      rows := rows + [Placed(Pad + BulletIndent, y, prefix + lines[li])];
      y := y + LineStep;
    }
    assert Marked(lines)[..|lines|] == Marked(lines);
  }

  /** One bullet: wrapped to `BulletMaxW`, then its lines placed from `y0` on. */
  method PlaceBullet(bullet: string, bodyWidth: string -> int, y0: int) returns (rows: seq<Placed>, y: int)
    ensures Texts(rows) == Marked(WrapLines(Split(bullet), bodyWidth, BulletMaxW))
    ensures y == y0 + LineStep * |rows|
    ensures forall k :: 0 <= k < |rows| ==> rows[k].x == Pad + BulletIndent && rows[k].y == y0 + LineStep * k
  {
    var lines := WrapText(bullet, bodyWidth, BulletMaxW);
    rows, y := PlaceBulletLines(lines, y0);
  }

  /** Rows drawn at the indented margin, in order, each a full line step above the
      next, all between `top` and `bottom`. */
  predicate Stacked(rows: seq<Placed>, top: int, bottom: int) {
    && (forall k :: 0 <= k < |rows| ==> rows[k].x == Pad + BulletIndent)
    && (forall k :: 0 <= k < |rows| ==> top <= rows[k].y && rows[k].y + LineStep <= bottom)
    && (forall k :: 0 <= k < |rows| - 1 ==> rows[k].y + LineStep <= rows[k + 1].y)
  }

  /** The rows of one more bullet, placed from the cursor on, keep the stack in order. */
  lemma StackedAppend(rows: seq<Placed>, added: seq<Placed>, top: int, y: int, yNext: int)
    requires Stacked(rows, top, y) && top <= y
    requires yNext == y + LineStep * |added|
    requires forall k :: 0 <= k < |added| ==> added[k].x == Pad + BulletIndent && added[k].y == y + LineStep * k
    ensures Stacked(rows + added, top, yNext + BulletGap)
  {
    var all := rows + added;
    forall k | 0 <= k < |all|
      ensures all[k].x == Pad + BulletIndent && top <= all[k].y && all[k].y + LineStep <= yNext + BulletGap
    {
      if k >= |rows| {
        assert all[k] == added[k - |rows|];
      }
    }
    forall k | 0 <= k < |all| - 1
      ensures all[k].y + LineStep <= all[k + 1].y
    {
      if k + 1 < |rows| {
      } else if k + 1 == |rows| {
        assert all[k + 1] == added[0];
      } else {
        assert all[k] == added[k - |rows|] && all[k + 1] == added[k + 1 - |rows|];
      }
    }
  }

  lemma TextsAppend(a: seq<Placed>, b: seq<Placed>)
    ensures Texts(a + b) == Texts(a) + Texts(b)
  {
  }

  /** The text and line count of the first `j + 1` bullets. */
  lemma BulletTextStep(bullets: seq<string>, j: int, bodyWidth: string -> int)
    requires 0 <= j < |bullets|
    ensures BulletText(bullets[..j + 1], bodyWidth) == BulletText(bullets[..j], bodyWidth) + Marked(WrapLines(Split(bullets[j]), bodyWidth, BulletMaxW))
    ensures TotalLines(bullets[..j + 1], bodyWidth) == TotalLines(bullets[..j], bodyWidth) + |WrapLines(Split(bullets[j]), bodyWidth, BulletMaxW)|
  {
    assert bullets[..j + 1][..j] == bullets[..j];
  }

  /** Lines before a later bullet are never fewer than lines before an earlier one. */
  lemma {:induction false} TotalLinesMono(bullets: seq<string>, bodyWidth: string -> int, i: int, j: int)
    requires 0 <= i <= j <= |bullets|
    ensures TotalLines(bullets[..i], bodyWidth) <= TotalLines(bullets[..j], bodyWidth)
    decreases j - i
  {
    if i < j {
      BulletTextStep(bullets, j - 1, bodyWidth);
      TotalLinesMono(bullets, bodyWidth, i, j - 1);
    }
  }

  /** Among the first `n` bullets, line `k` of the whole list, when it belongs to bullet
      `j`, is drawn at the indented margin and at `y0 + LineStep * k + BulletGap * j`:
      one line step per line and one gap per bullet above it. */
  predicate RowsAtBullets(rows: seq<Placed>, bullets: seq<string>, bodyWidth: string -> int, y0: int, n: int) {
    forall j, k ::
      0 <= j < n <= |bullets| && k < |rows| &&
      TotalLines(bullets[..j], bodyWidth) <= k < TotalLines(bullets[..j], bodyWidth) + |WrapLines(Split(bullets[j]), bodyWidth, BulletMaxW)| ==>
      rows[k].x == Pad + BulletIndent && rows[k].y == y0 + LineStep * k + BulletGap * j
  }

  /** `RowsAtBullets` read at one line `k` of one bullet `j`. */
  lemma RowsAtBulletsAt(rows: seq<Placed>, bullets: seq<string>, bodyWidth: string -> int, y0: int, n: int, j: int, k: int)
    requires RowsAtBullets(rows, bullets, bodyWidth, y0, n)
    requires 0 <= j < n <= |bullets| && k < |rows|
    requires TotalLines(bullets[..j], bodyWidth) <= k < TotalLines(bullets[..j + 1], bodyWidth)
    ensures rows[k].x == Pad + BulletIndent && rows[k].y == y0 + LineStep * k + BulletGap * j
  {
    BulletTextStep(bullets, j, bodyWidth);
  }

  /** A line of an earlier bullet is among the rows already placed. */
  lemma RowsAtEarlierBullet(rows: seq<Placed>, bullets: seq<string>, bodyWidth: string -> int, y0: int, j: int, i: int, k: int)
    requires 0 <= i < j < |bullets|
    requires RowsAtBullets(rows, bullets, bodyWidth, y0, j) && |rows| == TotalLines(bullets[..j], bodyWidth)
    requires TotalLines(bullets[..i], bodyWidth) <= k < TotalLines(bullets[..i + 1], bodyWidth)
    ensures k < |rows| && rows[k].x == Pad + BulletIndent && rows[k].y == y0 + LineStep * k + BulletGap * i
  {
    TotalLinesMono(bullets, bodyWidth, i + 1, j);
    RowsAtBulletsAt(rows, bullets, bodyWidth, y0, j, i, k);
  }

  /** The rows of bullet `j`, placed from the cursor on, extend the exact placement. */
  lemma RowsAtBulletsStep(rows: seq<Placed>, added: seq<Placed>, bullets: seq<string>, bodyWidth: string -> int, y0: int, j: int, y: int)
    requires 0 <= j < |bullets|
    requires RowsAtBullets(rows, bullets, bodyWidth, y0, j)
    requires |rows| == TotalLines(bullets[..j], bodyWidth)
    requires TotalLines(bullets[..j + 1], bodyWidth) == |rows| + |added|
    requires y == y0 + LineStep * |rows| + BulletGap * j
    requires forall k :: 0 <= k < |added| ==> added[k].x == Pad + BulletIndent && added[k].y == y + LineStep * k
    ensures RowsAtBullets(rows + added, bullets, bodyWidth, y0, j + 1)
  {
    var all := rows + added;
    forall i, k |
      0 <= i < j + 1 <= |bullets| && k < |all| &&
      TotalLines(bullets[..i], bodyWidth) <= k < TotalLines(bullets[..i], bodyWidth) + |WrapLines(Split(bullets[i]), bodyWidth, BulletMaxW)|
      ensures all[k].x == Pad + BulletIndent && all[k].y == y0 + LineStep * k + BulletGap * i
    {
      BulletTextStep(bullets, i, bodyWidth);
      if i < j {
        RowsAtEarlierBullet(rows, bullets, bodyWidth, y0, j, i, k);
        assert all[k] == rows[k];
      } else {
        assert all[k] == added[k - |rows|];
      }
    }
  }

  /** Every line of the list belongs to some bullet among the first `n`. */
  lemma {:induction false} BulletOf(bullets: seq<string>, bodyWidth: string -> int, n: int, k: int) returns (j: int)
    requires 0 <= n <= |bullets| && 0 <= k < TotalLines(bullets[..n], bodyWidth)
    ensures 0 <= j < n && TotalLines(bullets[..j], bodyWidth) <= k < TotalLines(bullets[..j + 1], bodyWidth)
    decreases n
  {
    if n == 0 {
      assert false;
    } else if TotalLines(bullets[..n - 1], bodyWidth) <= k {
      j := n - 1;
      assert bullets[..j + 1] == bullets[..n];
    } else {
      j := BulletOf(bullets, bodyWidth, n - 1, k);
    }
  }

  /** A line placed exactly by bullet lies between the start and the final cursor. */
  lemma RowAtBulletBounds(rows: seq<Placed>, bullets: seq<string>, bodyWidth: string -> int, y0: int, k: int)
    requires RowsAtBullets(rows, bullets, bodyWidth, y0, |bullets|) && |rows| == TotalLines(bullets, bodyWidth)
    requires 0 <= k < |rows|
    ensures rows[k].x == Pad + BulletIndent
    ensures y0 <= rows[k].y && rows[k].y + LineStep <= y0 + LineStep * TotalLines(bullets, bodyWidth) + BulletGap * |bullets|
  {
    assert bullets[..|bullets|] == bullets;
    var j := BulletOf(bullets, bodyWidth, |bullets|, k);
    RowsAtBulletsAt(rows, bullets, bodyWidth, y0, |bullets|, j, k);
  }

  /** Two consecutive lines placed exactly by bullet are a full line step apart or more. */
  lemma RowsAtBulletOrder(rows: seq<Placed>, bullets: seq<string>, bodyWidth: string -> int, y0: int, k: int)
    requires RowsAtBullets(rows, bullets, bodyWidth, y0, |bullets|) && |rows| == TotalLines(bullets, bodyWidth)
    requires 0 <= k < |rows| - 1
    ensures rows[k].y + LineStep <= rows[k + 1].y
  {
    assert bullets[..|bullets|] == bullets;
    var j := BulletOf(bullets, bodyWidth, |bullets|, k);
    var j' := BulletOf(bullets, bodyWidth, |bullets|, k + 1);
    RowsAtBulletsAt(rows, bullets, bodyWidth, y0, |bullets|, j, k);
    RowsAtBulletsAt(rows, bullets, bodyWidth, y0, |bullets|, j', k + 1);
    if j' < j {
      TotalLinesMono(bullets, bodyWidth, j' + 1, j);
    }
  }

  /** Lines placed exactly by bullet are stacked: all at the indented margin, each a full
      line step above the next, and all between the start and the final cursor. */
  lemma RowsAtBulletsStacked(rows: seq<Placed>, bullets: seq<string>, bodyWidth: string -> int, y0: int)
    requires RowsAtBullets(rows, bullets, bodyWidth, y0, |bullets|) && |rows| == TotalLines(bullets, bodyWidth)
    ensures Stacked(rows, y0, y0 + LineStep * TotalLines(bullets, bodyWidth) + BulletGap * |bullets|)
  {
    forall k | 0 <= k < |rows|
      ensures rows[k].x == Pad + BulletIndent
      ensures y0 <= rows[k].y && rows[k].y + LineStep <= y0 + LineStep * TotalLines(bullets, bodyWidth) + BulletGap * |bullets|
    {
      RowAtBulletBounds(rows, bullets, bodyWidth, y0, k);
    }
    forall k | 0 <= k < |rows| - 1
      ensures rows[k].y + LineStep <= rows[k + 1].y
    {
      RowsAtBulletOrder(rows, bullets, bodyWidth, y0, k);
    }
  }

  /** A first bullet with a word wraps to at least one line, and those lines come first. */
  lemma FirstBulletLines(bullets: seq<string>, bodyWidth: string -> int)
    requires bullets != [] && !IsBlank(bullets[0])
    ensures TotalLines(bullets[..0], bodyWidth) == 0
    ensures 1 <= TotalLines(bullets[..1], bodyWidth) <= TotalLines(bullets, bodyWidth)
  {
    SplitEmptyIffBlank(bullets[0]);
    WrapLinesEmpty(Split(bullets[0]), bodyWidth, BulletMaxW);
    BulletTextStep(bullets, 0, bodyWidth);
    assert bullets[..0] == [];
    TotalLinesMono(bullets, bodyWidth, 1, |bullets|);
    assert bullets[..|bullets|] == bullets;
  }

  /** When the first bullet has a word, the first line drawn is the first line of the
      first bullet and sits exactly at the start of the bullet list. */
  lemma FirstBulletLine(rows: seq<Placed>, bullets: seq<string>, bodyWidth: string -> int, y0: int)
    requires bullets != [] && !IsBlank(bullets[0])
    requires RowsAtBullets(rows, bullets, bodyWidth, y0, |bullets|) && |rows| == TotalLines(bullets, bodyWidth)
    ensures |rows| > 0 && rows[0].y == y0
  {
    FirstBulletLines(bullets, bodyWidth);
    RowsAtBulletsAt(rows, bullets, bodyWidth, y0, |bullets|, 0, 0);
  }

  /** Each of the three bullets ends with a full stop, so none is blank. */
  lemma BulletsNotBlank()
    ensures forall i :: 0 <= i < |Bullets| ==> !IsBlank(Bullets[i])
  {
    var b0, b1, b2 := Bullets[0], Bullets[1], Bullets[2];
    assert b0[|b0| - 1] == '.' && b1[|b1| - 1] == '.' && b2[|b2| - 1] == '.';
  }

  /** On the flyer, the first bullet line is drawn at y = 810, two call-to-action gaps
      below the header, whatever the font. */
  lemma FlyerFirstBulletLine(rows: seq<Placed>, bodyWidth: string -> int)
    requires RowsAtBullets(rows, Bullets, bodyWidth, 810, |Bullets|)
    requires |rows| == TotalLines(Bullets, bodyWidth)
    ensures |rows| > 0 && rows[0].y == 810
  {
    BulletsNotBlank();
    FirstBulletLine(rows, Bullets, bodyWidth, 810);
  }

  /** The wrap width is the span from the page margin to the QR code, but the wrapper
      measures a line without its mark while the line is drawn with the mark, 75 px
      further right. With a font that draws every character 20 px wide, a 61-letter word
      fits the wrap width and is kept whole, yet runs past the left edge of the QR code. */
  lemma BulletCanReachQr(w: string)
    requires IsWord(w) && |w| == 61
    ensures var bodyWidth := (s: string) => 20 * |s|;
      && WrapLines(Split(w), bodyWidth, BulletMaxW) == [w]
      && Pad + bodyWidth(w) <= W - Pad - QrSizePx
      && Pad + BulletIndent + bodyWidth(Marked([w])[0]) > W - Pad - QrSizePx
  {
    var bodyWidth := (s: string) => 20 * |s|;
    SplitWord(w);
    assert Groups([w], bodyWidth, BulletMaxW) == [[w]];
    assert Marked([w])[0] == "\U{2022} " + w;
  }

  /** The bullet loop: each bullet is wrapped to `BulletMaxW`, its lines are drawn one
      line step apart at the indented left margin, and a gap follows each bullet. The
      cursor ends one line step per line and one gap per bullet below where it began,
      and the lines are drawn in order, each fully above the next. */
  method PlaceBullets(bullets: seq<string>, bodyWidth: string -> int, y0: int) returns (rows: seq<Placed>, y: int)
    ensures y == y0 + LineStep * TotalLines(bullets, bodyWidth) + BulletGap * |bullets|
    ensures Texts(rows) == BulletText(bullets, bodyWidth) && |rows| == TotalLines(bullets, bodyWidth)
    ensures RowsAtBullets(rows, bullets, bodyWidth, y0, |bullets|)
    ensures Stacked(rows, y0, y)
  {
    y := y0;
    rows := [];
    for j := 0 to |bullets|
      invariant y == y0 + LineStep * TotalLines(bullets[..j], bodyWidth) + BulletGap * j
      invariant Texts(rows) == BulletText(bullets[..j], bodyWidth)
      invariant y0 <= y && Stacked(rows, y0, y)
      invariant |rows| == TotalLines(bullets[..j], bodyWidth)
      invariant RowsAtBullets(rows, bullets, bodyWidth, y0, j)
    {
      var added, yNext := PlaceBullet(bullets[j], bodyWidth, y);
      TextsAppend(rows, added);
      BulletTextStep(bullets, j, bodyWidth);
      StackedAppend(rows, added, y0, y, yNext);
      RowsAtBulletsStep(rows, added, bullets, bodyWidth, y0, j, y);
      rows := rows + added;
      y := yNext + BulletGap;
    }
    assert bullets[..|bullets|] == bullets;
  }

  // ---------------------------------------------------------------- centred labels

  /** `left + (boxW - width) // 2`, the x at which a line `width` wide is drawn centred in
      a box `boxW` wide starting at `left`. Python's `//` rounds down; so does Dafny's `/`
      by a positive divisor. The space left over on the right is that on the left or one
      pixel more, and a line that fits the box stays inside it. */
  function CentreX(left: int, boxW: int, width: int): (x: int)
    ensures 0 <= (left + boxW - (x + width)) - (x - left) <= 1
    ensures width <= boxW ==> left <= x && x + width <= left + boxW
  {
    left + (boxW - width) / 2
  }

  /** Centring puts a line at the one position where the two margins differ by 0 or 1. */
  lemma CentreXUnique(left: int, boxW: int, width: int, x: int)
    requires 0 <= (left + boxW - (x + width)) - (x - left) <= 1
    ensures x == CentreX(left, boxW, width)
  {
  }

  /** A label loop: each line is drawn centred in the box at `left` of width `boxW`,
      the first at `y0` and each next one `step` lower. */
  method PlaceCentred(lines: seq<string>, width: string -> int, left: int, boxW: int, y0: int, step: int)
    returns (rows: seq<Placed>, y: int)
    ensures Texts(rows) == lines && y == y0 + step * |lines|
    ensures forall k :: 0 <= k < |rows| ==>
      rows[k].x == CentreX(left, boxW, width(rows[k].text)) && rows[k].y == y0 + step * k
  {
    rows := [];
    y := y0;
    for i := 0 to |lines|
      invariant |rows| == i && y == y0 + step * i
      invariant forall k :: 0 <= k < i ==> rows[k] == Placed(CentreX(left, boxW, width(lines[k])), y0 + step * k, lines[k])
    {
      var line := lines[i];
      rows := rows + [Placed(left + (boxW - width(line)) / 2, y, line)];
      y := y + step;
    }
  }

  /** A label block: the text is wrapped to the box width `boxW` and each line is drawn
      centred in the box at `left`, the first at `y0` and each next one `step` lower; the
      cursor ends one step per line below `y0`. */
  method CentredLines(text: string, width: string -> int, left: int, boxW: int, y0: int, step: int)
    returns (rows: seq<Placed>, y: int)
    ensures Texts(rows) == WrapLines(Split(text), width, boxW) && y == y0 + step * |rows|
    ensures forall k :: 0 <= k < |rows| ==>
      rows[k].x == CentreX(left, boxW, width(rows[k].text)) && rows[k].y == y0 + step * k
  {
    var lines := WrapText(text, width, boxW);
    rows, y := PlaceCentred(lines, width, left, boxW, y0, step);
  }

  // ---------------------------------------------------------------- URL text, second QR, files

  /** The URL text shown under the main QR code: `primary_url.replace("https://", "")`. */
  function DisplayUrl(url: string): string {
    RemoveAll(url, "https://")
  }

  /** A URL that starts with the scheme and has no other occurrence of it is shown
      without the scheme. */
  lemma DisplayUrlDropsScheme(rest: string)
    requires forall i :: 0 <= i <= |rest| - 8 ==> !OccursAt("https://", rest, i)
    ensures DisplayUrl("https://" + rest) == rest
  {
    RemoveAllLeading("https://", rest);
  }

  /** Python truthiness of a `str | None`: neither `None` nor empty. */
  predicate Truthy(s: Option<string>) {
    s.Some? && s.value != ""
  }

  /** `spec.secondary_url and spec.secondary_label` */
  predicate ShowSecondary(spec: FlyerSpec) {
    Truthy(spec.secondaryUrl) && Truthy(spec.secondaryLabel)
  }

  function FlyerName(slug: string, ext: string): string {
    "flyer_" + slug + "_letter." + ext
  }

  /** `os.path.join(out_dir, f"flyer_{slug}_letter.png")` and the same with `.pdf`. */
  function OutputPaths(outDir: string, slug: string): (paths: (string, string))
    ensures paths.0 != paths.1
    ensures InDir(paths.0, outDir, FlyerName(slug, "png")) && InDir(paths.1, outDir, FlyerName(slug, "pdf"))
  {
    var png, pdf := PathJoin(outDir, FlyerName(slug, "png")), PathJoin(outDir, FlyerName(slug, "pdf"));
    PathJoinInDir(outDir, FlyerName(slug, "png"));
    PathJoinInDir(outDir, FlyerName(slug, "pdf"));
    assert png[|png| - 1] == 'g' && pdf[|pdf| - 1] == 'f';
    (png, pdf)
  }

  lemma FlyerNameInjective(s1: string, s2: string, ext: string)
    requires FlyerName(s1, ext) == FlyerName(s2, ext)
    ensures s1 == s2
  {
    var n := FlyerName(s1, ext);
    assert s1 == n[6..|n| - 8 - |ext|];
    assert s2 == FlyerName(s2, ext)[6..|n| - 8 - |ext|];
  }

  /** Different slugs never write to the same file, in the same output directory. */
  lemma OutputPathsInjective(outDir: string, s1: string, s2: string)
    ensures OutputPaths(outDir, s1).0 == OutputPaths(outDir, s2).0 ==> s1 == s2
    ensures OutputPaths(outDir, s1).1 == OutputPaths(outDir, s2).1 ==> s1 == s2
  {
    if OutputPaths(outDir, s1).0 == OutputPaths(outDir, s2).0 {
      PathJoinInjective(outDir, FlyerName(s1, "png"), FlyerName(s2, "png"));
      FlyerNameInjective(s1, s2, "png");
    }
    if OutputPaths(outDir, s1).1 == OutputPaths(outDir, s2).1 {
      PathJoinInjective(outDir, FlyerName(s1, "pdf"), FlyerName(s2, "pdf"));
      FlyerNameInjective(s1, s2, "pdf");
    }
  }

  // ---------------------------------------------------------------- the page

  /** `render_letter(spec, out_dir)`. The bullet lines are the wrapped bullets, each at its
      exact position from y = 810 on, two call-to-action gaps below the header (and so
      stacked in order, by `RowsAtBulletsStacked`); the main
      QR code sits against the right margin, with its label and then its URL text
      centred under it; the second QR code appears exactly when its URL and label are
      both set, against the right margin below the URL text, with its label centred
      under it; and the two paths are those named after the slug. */
  method RenderLetter(spec: FlyerSpec, outDir: string, bodyWidth: string -> int, smallWidth: string -> int)
    returns (letter: Letter)
    ensures Texts(letter.bullets) == BulletText(Bullets, bodyWidth) && |letter.bullets| == TotalLines(Bullets, bodyWidth)
    ensures RowsAtBullets(letter.bullets, Bullets, bodyWidth, 810, |Bullets|)
    ensures |letter.bullets| > 0 && letter.bullets[0].y == 810
    ensures letter.qrX + QrSizePx == W - Pad && letter.qrY == HeaderH + QrTopGap
    ensures Pad + BulletMaxW == letter.qrX
    ensures Texts(letter.caption) == WrapLines(Split(spec.primaryLabel), smallWidth, QrSizePx)
    ensures Texts(letter.url) == WrapLines(Split(DisplayUrl(spec.primaryUrl)), smallWidth, QrSizePx)
    ensures forall k :: 0 <= k < |letter.caption| ==>
      letter.caption[k].x == CentreX(letter.qrX, QrSizePx, smallWidth(letter.caption[k].text))
      && letter.caption[k].y == letter.qrY + QrSizePx + LabelGap + LabelStep * k
    ensures forall k :: 0 <= k < |letter.url| ==>
      letter.url[k].x == CentreX(letter.qrX, QrSizePx, smallWidth(letter.url[k].text))
      && letter.url[k].y == letter.qrY + QrSizePx + LabelGap + LabelStep * |letter.caption| + UrlStep * k
    ensures letter.secondary.Some? <==> ShowSecondary(spec)
    ensures letter.secondary.Some? ==>
      var b := letter.secondary.value;
      b.x + Qr2SizePx == W - Pad
      && b.y == letter.qrY + QrSizePx + LabelGap + LabelStep * |letter.caption| + UrlStep * |letter.url| + Qr2Gap
      && Texts(b.caption) == WrapLines(Split(spec.secondaryLabel.value), smallWidth, Qr2SizePx)
      && forall k :: 0 <= k < |b.caption| ==>
           b.caption[k].x == CentreX(b.x, Qr2SizePx, smallWidth(b.caption[k].text))
           && b.caption[k].y == b.y + Qr2SizePx + Label2Gap + Label2Step * k
    ensures (letter.png, letter.pdf) == OutputPaths(outDir, spec.slug)
  {
    var y := HeaderH + CtaGap;
    y := y + CtaGap;
    var bulletRows, _ := PlaceBullets(Bullets, bodyWidth, y);
    FlyerFirstBulletLine(bulletRows, bodyWidth);

    var qrX := W - Pad - QrSizePx;
    var qrY := HeaderH + QrTopGap;

    var ly := qrY + QrSizePx + LabelGap;
    var labelRows, ly1 := CentredLines(spec.primaryLabel, smallWidth, qrX, QrSizePx, ly, LabelStep);

    var urlText := DisplayUrl(spec.primaryUrl);
    var urlRows, ly2 := CentredLines(urlText, smallWidth, qrX, QrSizePx, ly1, UrlStep);

    var secondary: Option<SecondaryBlock> := None;
    if ShowSecondary(spec) {
      var qr2X := W - Pad - Qr2SizePx;
      var qr2Y := ly2 + Qr2Gap;
      var l2y := qr2Y + Qr2SizePx + Label2Gap;
      var l2Rows, _ := CentredLines(spec.secondaryLabel.value, smallWidth, qr2X, Qr2SizePx, l2y, Label2Step);
      secondary := Some(SecondaryBlock(qr2X, qr2Y, l2Rows));
    }

    var paths := OutputPaths(outDir, spec.slug);
    letter := Letter(bulletRows, qrX, qrY, labelRows, urlRows, secondary, paths.0, paths.1);
  }

  // ---------------------------------------------------------------- the three flyers

  const Site: string := "https://ai-village-agents.github.io/park-cleanup-site/"
  const IssueSf: string := "https://github.com/ai-village-agents/park-cleanups/issues/3"
  const IssueNyc: string := "https://github.com/ai-village-agents/park-cleanups/issues/1"

  /** The three flyers `main` renders. */
  const Specs: seq<FlyerSpec> := [
    FlyerSpec("general", "AI Village Park Cleanup", "We need human volunteers in SF + NYC",
      Site, "Start here", Some(IssueSf), Some("Volunteer (SF)")),
    FlyerSpec("mission_dolores", "Mission Dolores Park Cleanup", "San Francisco (Dolores St & 19th St)",
      IssueSf, "Claim Mission Dolores", Some(Site), Some("Project site")),
    FlyerSpec("devoe_park", "Devoe Park Cleanup", "Bronx, NYC (W 188th St & University Ave)",
      IssueNyc, "Claim Devoe Park", Some(Site), Some("Project site"))
  ]

  /** Every flyer `main` renders carries the second QR code, and together they write six
      different files. */
  lemma MainSpecs(outDir: string)
    ensures forall i :: 0 <= i < |Specs| ==> ShowSecondary(Specs[i])
    ensures forall i, j :: 0 <= i < |Specs| && 0 <= j < |Specs| && i != j ==>
      var (a, b) := (OutputPaths(outDir, Specs[i].slug), OutputPaths(outDir, Specs[j].slug));
      a.0 != b.0 && a.1 != b.1 && a.0 != b.1
  {
    forall i, j | 0 <= i < |Specs| && 0 <= j < |Specs| && i != j
      ensures OutputPaths(outDir, Specs[i].slug).0 != OutputPaths(outDir, Specs[j].slug).0
      ensures OutputPaths(outDir, Specs[i].slug).1 != OutputPaths(outDir, Specs[j].slug).1
      ensures OutputPaths(outDir, Specs[i].slug).0 != OutputPaths(outDir, Specs[j].slug).1
    {
      assert Specs[i].slug != Specs[j].slug by {
        assert |Specs[0].slug| == 7 && |Specs[1].slug| == 15 && |Specs[2].slug| == 10;
      }
      OutputPathsInjective(outDir, Specs[i].slug, Specs[j].slug);
      PngNotPdf(outDir, Specs[i].slug, Specs[j].slug);
    }
  }

  /** A `.png` path is never a `.pdf` path. */
  lemma PngNotPdf(outDir: string, s1: string, s2: string)
    ensures OutputPaths(outDir, s1).0 != OutputPaths(outDir, s2).1
  {
    var a, b := OutputPaths(outDir, s1).0, OutputPaths(outDir, s2).1;
    InDirEndsWithName(a, outDir, FlyerName(s1, "png"));
    InDirEndsWithName(b, outDir, FlyerName(s2, "pdf"));
    assert a[|a| - 1] == FlyerName(s1, "png")[|FlyerName(s1, "png")| - 1] == 'g';
    assert b[|b| - 1] == FlyerName(s2, "pdf")[|FlyerName(s2, "pdf")| - 1] == 'f';
  }
}
