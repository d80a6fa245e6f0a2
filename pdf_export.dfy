/**
 * The arithmetic of `exportToPDF`: the preview is rasterised at twice its
 * size, scaled to the page width, and cut into bands of at most one page
 * height; each band is drawn on a page of its own. The rasteriser and the
 * PDF library are not modelled: a drawn band is recorded as a `Band`, and
 * `pdf.addPage()` calls are counted. Lengths are exact reals.
 */
module PdfExport {

  import Resume

  /** The `scale` html2canvas is asked for: the canvas has two pixels per CSS pixel. */
  const Oversample: real := 2.0

  /** `new jsPDF("p", "mm", "a4")`: the A4 page of ISO 216 in portrait, in millimetres. */
  const A4Width: real := 210.0
  const A4Height: real := 297.0

  /** The off-screen container is 794 CSS pixels wide, so the canvas is twice that. */
  const CanvasWidth: real := 794.0 * Oversample

  /** The name used when the contact name is empty. */
  const DefaultName: string := "Amit Gupta"

  /**
   * One `addImage` call: the band `[sourceY, sourceY + sourceHeight)` of
   * canvas rows, drawn at the top of a page across its width and
   * `contentHeight` page units tall.
   */
  datatype Band = Band(sourceY: real, sourceHeight: real, contentHeight: real)

  /** Page units per CSS pixel: the page width over the canvas width at scale 1. */
  function Ratio(imgWidth: real, pdfWidth: real): real
    requires imgWidth > 0.0
  {
    pdfWidth / (imgWidth / Oversample)
  }

  /** The height the whole canvas takes on the page at width `pdfWidth`. */
  function ScaledHeight(imgWidth: real, imgHeight: real, pdfWidth: real): real
    requires imgWidth > 0.0
  {
    (imgHeight / Oversample) * Ratio(imgWidth, pdfWidth)
  }

  /** `Math.min`. */
  function Min(a: real, b: real): real
  {
    if a <= b then a else b
  }

  /** The least integer at or above `x`. */
  function Ceil(x: real): (n: int)
    ensures n as real - 1.0 < x <= n as real
  {
    var f := x.Floor;
    if f as real == x then f else f + 1
  }

  lemma CeilUnique(x: real, m: int)
    requires m as real - 1.0 < x <= m as real
    ensures Ceil(x) == m
  {
  }

  /** `m` pages of height `p` are the fewest that hold `s`: then `m` is the ceiling of `s / p`. */
  lemma CeilOfQuotient(s: real, p: real, m: int)
    requires p > 0.0
    requires (m as real - 1.0) * p < s <= m as real * p
    ensures Ceil(s / p) == m
  {
    var q := s / p;
    assert q * p == s;
    if q <= m as real - 1.0 {
      MulMonotone(q, m as real - 1.0, p);
      assert false;
    }
    if q > m as real {
      MulMonotone(m as real, q, p);
      assert false;
    }
    CeilUnique(q, m);
  }

  /** The ceiling of `s / p` page heights reach at least `s`. */
  lemma CeilCovers(s: real, p: real)
    requires p > 0.0
    ensures s <= Ceil(s / p) as real * p
  {
    var q := s / p;
    assert q * p == s;
    MulMonotone(q, Ceil(q) as real, p);
  }

  lemma MulMonotone(a: real, b: real, p: real)
    requires a <= b && p > 0.0
    ensures a * p <= b * p
  {
    assert b * p - a * p == (b - a) * p;
  }

  /** Sum of the page heights used by the bands. */
  function SumContent(bands: seq<Band>): real
  {
    if bands == [] then 0.0 else SumContent(bands[..|bands| - 1]) + bands[|bands| - 1].contentHeight
  }

  /** Sum of the canvas rows the bands take. */
  function SumSource(bands: seq<Band>): real
  {
    if bands == [] then 0.0 else SumSource(bands[..|bands| - 1]) + bands[|bands| - 1].sourceHeight
  }

  /** Each band starts on the canvas row where the one before it ends. */
  ghost predicate Contiguous(bands: seq<Band>)
  {
    forall k :: 0 <= k < |bands| - 1 ==> bands[k + 1].sourceY == bands[k].sourceY + bands[k].sourceHeight
  }

  /** The bands cut the canvas rows `[0, imgHeight)` into consecutive pieces with no gap and no overlap. */
  ghost predicate Tiles(bands: seq<Band>, imgHeight: real)
  {
    && bands != []
    && bands[0].sourceY == 0.0
    && Contiguous(bands)
    && bands[|bands| - 1].sourceY + bands[|bands| - 1].sourceHeight == imgHeight
  }

  /** Where the loop's cursor `yPosition` stands after `k` turns: `k` page heights down. */
  function Cursor(k: nat, p: real): real
  {
    if k == 0 then 0.0 else Cursor(k - 1, p) + p
  }

  lemma {:induction false} CursorIsProduct(k: nat, p: real)
    ensures Cursor(k, p) == k as real * p
  {
    if k > 0 {
      CursorIsProduct(k - 1, p);
      assert (k - 1) as real * p + p == k as real * p;
    }
  }

  lemma {:induction false} CursorMonotone(j: nat, k: nat, p: real)
    requires j <= k && p > 0.0
    ensures Cursor(j, p) <= Cursor(k, p)
  {
    if j < k {
      CursorMonotone(j, k - 1, p);
    }
  }

  /** The cursor stands higher after fewer turns. */
  lemma CursorOrder(j: nat, k: nat, p: real)
    requires p > 0.0
    ensures Cursor(j, p) < Cursor(k, p) ==> j < k
  {
    if j >= k {
      CursorMonotone(k, j, p);
    }
  }

  /** Some number of turns moves the cursor past `s`. */
  lemma EnoughTurns(s: real, p: real) returns (n: nat)
    requires s > 0.0 && p > 0.0
    ensures s <= Cursor(n, p)
  {
    assert s / p > 0.0;
    n := Ceil(s / p);
    CeilCovers(s, p);
    CursorIsProduct(n, p);
  }

  /** The band the loop draws on the turn when the cursor has moved `k` times. */
  function LoopBand(k: nat, ratio: real, scaledHeight: real, pdfHeight: real): Band
    requires ratio > 0.0
  {
    var y := Cursor(k, pdfHeight);
    var h := Min(pdfHeight, scaledHeight - y);
    Band((y / ratio) * Oversample, (h / ratio) * Oversample, h)
  }

  /** A band that is not the last one fills its page, so the next band starts where it ends. */
  lemma LoopBandsMeet(k: nat, ratio: real, scaledHeight: real, pdfHeight: real)
    requires ratio > 0.0 && pdfHeight > 0.0
    requires Cursor(k + 1, pdfHeight) < scaledHeight
    ensures LoopBand(k + 1, ratio, scaledHeight, pdfHeight).sourceY
         == LoopBand(k, ratio, scaledHeight, pdfHeight).sourceY + LoopBand(k, ratio, scaledHeight, pdfHeight).sourceHeight
  {
    var y := Cursor(k, pdfHeight);
    assert ((y + pdfHeight) / ratio) * Oversample == (y / ratio) * Oversample + (pdfHeight / ratio) * Oversample;
  }

  /** The last band takes what is left, so it ends at the bottom of the scaled content. */
  lemma LastLoopBandEnds(k: nat, ratio: real, scaledHeight: real, pdfHeight: real)
    requires ratio > 0.0 && pdfHeight > 0.0
    requires scaledHeight <= Cursor(k + 1, pdfHeight)
    ensures LoopBand(k, ratio, scaledHeight, pdfHeight).sourceY + LoopBand(k, ratio, scaledHeight, pdfHeight).sourceHeight
         == (scaledHeight / ratio) * Oversample
  {
    var y := Cursor(k, pdfHeight);
    assert (y / ratio) * Oversample + ((scaledHeight - y) / ratio) * Oversample == (scaledHeight / ratio) * Oversample;
  }

  /** One turn of the loop adds what it draws to the covered height, on the page and on the canvas. */
  lemma LoopStep(y: real, p: real, s: real, ratio: real)
    requires y < s && p > 0.0 && ratio > 0.0
    ensures Min(y, s) + Min(p, s - y) == Min(y + p, s)
    ensures (Min(y, s) / ratio) * Oversample + (Min(p, s - y) / ratio) * Oversample == (Min(y + p, s) / ratio) * Oversample
  {
    var c := Min(p, s - y);
    assert (y / ratio) * Oversample + (c / ratio) * Oversample == ((y + c) / ratio) * Oversample;
  }

  lemma SumsAppend(bands: seq<Band>, b: Band)
    ensures SumContent(bands + [b]) == SumContent(bands) + b.contentHeight
    ensures SumSource(bands + [b]) == SumSource(bands) + b.sourceHeight
  {
    assert (bands + [b])[..|bands|] == bands;
  }

  /** The bands the loop has drawn after `m` turns. */
  function LoopBands(m: nat, ratio: real, scaledHeight: real, pdfHeight: real): (bands: seq<Band>)
    requires ratio > 0.0
    ensures |bands| == m
  {
    if m == 0 then [] else LoopBands(m - 1, ratio, scaledHeight, pdfHeight) + [LoopBand(m - 1, ratio, scaledHeight, pdfHeight)]
  }

  /** Turn `k` of the loop draws `LoopBand(k)`. */
  lemma {:induction false} LoopBandsAt(m: nat, ratio: real, scaledHeight: real, pdfHeight: real)
    requires ratio > 0.0
    ensures forall k :: 0 <= k < m ==> LoopBands(m, ratio, scaledHeight, pdfHeight)[k] == LoopBand(k, ratio, scaledHeight, pdfHeight)
  {
    if m > 0 {
      LoopBandsAt(m - 1, ratio, scaledHeight, pdfHeight);
    }
  }

  /**
   * While the cursor has not yet passed the scaled height, the bands drawn so
   * far cover exactly the part of the content above the cursor.
   */
  lemma {:induction false} LoopBandsCover(m: nat, ratio: real, scaledHeight: real, pdfHeight: real)
    requires ratio > 0.0 && pdfHeight > 0.0 && scaledHeight >= 0.0
    requires m > 0 ==> Cursor(m - 1, pdfHeight) < scaledHeight
    ensures SumContent(LoopBands(m, ratio, scaledHeight, pdfHeight)) == Min(Cursor(m, pdfHeight), scaledHeight)
    ensures SumSource(LoopBands(m, ratio, scaledHeight, pdfHeight))
         == (Min(Cursor(m, pdfHeight), scaledHeight) / ratio) * Oversample
  {
    if m > 0 {
      if m > 1 {
        CursorMonotone(m - 2, m - 1, pdfHeight);
      }
      LoopBandsCover(m - 1, ratio, scaledHeight, pdfHeight);
      var before := LoopBands(m - 1, ratio, scaledHeight, pdfHeight);
      LoopStep(Cursor(m - 1, pdfHeight), pdfHeight, scaledHeight, ratio);
      SumsAppend(before, LoopBand(m - 1, ratio, scaledHeight, pdfHeight));
    }
  }

  /**
   * The `while (yPosition < scaledHeight)` loop of the multi-page case: each
   * turn starts a new page unless it is the first, draws the next band, and
   * moves the cursor down one page height, until the cursor passes the
   * scaled height. The loop runs `m` times, where `m` is the least number of
   * page heights that reaches the scaled height.
   */
  method SliceBands(ratio: real, scaledHeight: real, pdfHeight: real) returns (bands: seq<Band>, addedPages: nat)
    requires ratio > 0.0 && pdfHeight > 0.0 && scaledHeight > pdfHeight
    ensures bands != [] && addedPages == |bands| - 1
    ensures Cursor(|bands| - 1, pdfHeight) < scaledHeight <= Cursor(|bands|, pdfHeight)
    ensures bands == LoopBands(|bands|, ratio, scaledHeight, pdfHeight)
    ensures SumContent(bands) == scaledHeight
    ensures SumSource(bands) == (scaledHeight / ratio) * Oversample
  {
    var yPosition := 0.0;
    var pageNumber: nat := 0;
    bands, addedPages := [], 0;
    ghost var n := EnoughTurns(scaledHeight, pdfHeight);
    while yPosition < scaledHeight
      invariant pageNumber <= n
      invariant yPosition == Cursor(pageNumber, pdfHeight)
      invariant bands == LoopBands(pageNumber, ratio, scaledHeight, pdfHeight)
      invariant addedPages == if pageNumber == 0 then 0 else pageNumber - 1
      invariant pageNumber > 0 ==> Cursor(pageNumber - 1, pdfHeight) < scaledHeight
      decreases n - pageNumber
    {
      CursorOrder(pageNumber, n, pdfHeight);
      if pageNumber > 0 {
        addedPages := addedPages + 1;  // pdf.addPage()
      }
      var remainingHeight := scaledHeight - yPosition;
      var pageContentHeight := Min(pdfHeight, remainingHeight);
      var sourceY := (yPosition / ratio) * Oversample;
      var sourceHeight := (pageContentHeight / ratio) * Oversample;
      assert Band(sourceY, sourceHeight, pageContentHeight) == LoopBand(pageNumber, ratio, scaledHeight, pdfHeight);
      bands := bands + [Band(sourceY, sourceHeight, pageContentHeight)];  // pdf.addImage(...)
      yPosition := yPosition + pdfHeight;
      pageNumber := pageNumber + 1;
    }
    LoopBandsCover(pageNumber, ratio, scaledHeight, pdfHeight);
  }

  /**
   * The pagination of `exportToPDF` for a canvas of `imgWidth` by `imgHeight`
   * pixels and a page of `pdfWidth` by `pdfHeight`: the bands drawn, in
   * order, and how many times a new page was started.
   */
  method Paginate(imgWidth: real, imgHeight: real, pdfWidth: real, pdfHeight: real)
    returns (bands: seq<Band>, addedPages: nat)
    requires imgWidth > 0.0 && imgHeight >= 0.0 && pdfWidth > 0.0 && pdfHeight > 0.0
    ensures addedPages == |bands| - 1
    ensures ScaledHeight(imgWidth, imgHeight, pdfWidth) <= pdfHeight ==>
      bands == [Band(0.0, imgHeight, ScaledHeight(imgWidth, imgHeight, pdfWidth))]
    ensures ScaledHeight(imgWidth, imgHeight, pdfWidth) > 0.0 ==>
      |bands| == Ceil(ScaledHeight(imgWidth, imgHeight, pdfWidth) / pdfHeight)
    ensures ScaledHeight(imgWidth, imgHeight, pdfWidth) > pdfHeight ==>
      forall k :: 0 <= k < |bands| ==>
        && bands[k].sourceY == (k as real * pdfHeight / Ratio(imgWidth, pdfWidth)) * Oversample
        && 0.0 < bands[k].contentHeight <= pdfHeight
    ensures forall k :: 0 <= k < |bands| ==>
      bands[k].sourceHeight == (bands[k].contentHeight / Ratio(imgWidth, pdfWidth)) * Oversample
    ensures Tiles(bands, imgHeight)
    ensures SumContent(bands) == ScaledHeight(imgWidth, imgHeight, pdfWidth)
    ensures SumSource(bands) == imgHeight
  {
    var ratio := pdfWidth / (imgWidth / Oversample);
    var scaledHeight := (imgHeight / Oversample) * ratio;
    assert ratio == Ratio(imgWidth, pdfWidth) && scaledHeight == ScaledHeight(imgWidth, imgHeight, pdfWidth);
    ScaleBack(imgWidth, imgHeight, pdfWidth);
    if scaledHeight <= pdfHeight {
      // one page, the whole canvas
      bands := [Band(0.0, imgHeight, scaledHeight)];
      addedPages := 0;
      SumsAppend([], bands[0]);
      if scaledHeight > 0.0 {
        CeilOfQuotient(scaledHeight, pdfHeight, 1);
      }
    } else {
      bands, addedPages := SliceBands(ratio, scaledHeight, pdfHeight);
      MultiPageTiles(bands, ratio, scaledHeight, pdfHeight);
    }
  }

  /** Mapping the scaled height back to canvas rows gives the canvas height. */
  lemma ScaleBack(imgWidth: real, imgHeight: real, pdfWidth: real)
    requires imgWidth > 0.0 && pdfWidth > 0.0
    ensures Ratio(imgWidth, pdfWidth) > 0.0
    ensures (ScaledHeight(imgWidth, imgHeight, pdfWidth) / Ratio(imgWidth, pdfWidth)) * Oversample == imgHeight
  {
  }

  /** A loop that stops after `m` turns ran the ceiling of `scaledHeight / pdfHeight` times. */
  lemma LoopCount(m: nat, scaledHeight: real, pdfHeight: real)
    requires pdfHeight > 0.0 && m > 0
    requires Cursor(m - 1, pdfHeight) < scaledHeight <= Cursor(m, pdfHeight)
    ensures Ceil(scaledHeight / pdfHeight) == m
  {
    CursorIsProduct(m - 1, pdfHeight);
    CursorIsProduct(m, pdfHeight);
    assert (m - 1) as real == m as real - 1.0;
    CeilOfQuotient(scaledHeight, pdfHeight, m);
  }

  /** Band `k` of a loop that ran `m` turns starts `k` page heights down and holds at most one page. */
  lemma LoopBandShape(k: nat, m: nat, ratio: real, scaledHeight: real, pdfHeight: real)
    requires ratio > 0.0 && pdfHeight > 0.0 && k < m
    requires Cursor(m - 1, pdfHeight) < scaledHeight
    ensures LoopBand(k, ratio, scaledHeight, pdfHeight).sourceY == (k as real * pdfHeight / ratio) * Oversample
    ensures 0.0 < LoopBand(k, ratio, scaledHeight, pdfHeight).contentHeight <= pdfHeight
    ensures LoopBand(k, ratio, scaledHeight, pdfHeight).sourceHeight
         == (LoopBand(k, ratio, scaledHeight, pdfHeight).contentHeight / ratio) * Oversample
  {
    CursorIsProduct(k, pdfHeight);
    CursorMonotone(k, m - 1, pdfHeight);
  }

  /** Every band of a loop that ran `m` turns starts `k` page heights down and holds at most one page. */
  lemma LoopBandsShape(m: nat, ratio: real, scaledHeight: real, pdfHeight: real)
    requires ratio > 0.0 && pdfHeight > 0.0 && m > 0
    requires Cursor(m - 1, pdfHeight) < scaledHeight
    ensures forall k :: 0 <= k < m ==>
      && LoopBands(m, ratio, scaledHeight, pdfHeight)[k].sourceY == (k as real * pdfHeight / ratio) * Oversample
      && 0.0 < LoopBands(m, ratio, scaledHeight, pdfHeight)[k].contentHeight <= pdfHeight
      && LoopBands(m, ratio, scaledHeight, pdfHeight)[k].sourceHeight
         == (LoopBands(m, ratio, scaledHeight, pdfHeight)[k].contentHeight / ratio) * Oversample
  {
    LoopBandsAt(m, ratio, scaledHeight, pdfHeight);
    forall k | 0 <= k < m {
      LoopBandShape(k, m, ratio, scaledHeight, pdfHeight);
    }
  }

  /** The bands of a loop that ran `m` turns follow one another without gap from row 0 to the bottom of the content. */
  lemma LoopBandsContiguous(m: nat, ratio: real, scaledHeight: real, pdfHeight: real)
    requires ratio > 0.0 && pdfHeight > 0.0 && m > 0
    requires Cursor(m - 1, pdfHeight) < scaledHeight <= Cursor(m, pdfHeight)
    ensures LoopBands(m, ratio, scaledHeight, pdfHeight)[0].sourceY == 0.0
    ensures Contiguous(LoopBands(m, ratio, scaledHeight, pdfHeight))
    ensures LoopBands(m, ratio, scaledHeight, pdfHeight)[m - 1].sourceY + LoopBands(m, ratio, scaledHeight, pdfHeight)[m - 1].sourceHeight
         == (scaledHeight / ratio) * Oversample
  {
    var bands := LoopBands(m, ratio, scaledHeight, pdfHeight);
    LoopBandsAt(m, ratio, scaledHeight, pdfHeight);
    forall k | 0 <= k < m - 1
      ensures bands[k + 1].sourceY == bands[k].sourceY + bands[k].sourceHeight
    {
      CursorMonotone(k + 1, m - 1, pdfHeight);
      LoopBandsMeet(k, ratio, scaledHeight, pdfHeight);
    }
    LastLoopBandEnds(m - 1, ratio, scaledHeight, pdfHeight);
  }

  /** What the bands of the multi-page loop add up to. */
  lemma MultiPageTiles(bands: seq<Band>, ratio: real, scaledHeight: real, pdfHeight: real)
    requires ratio > 0.0 && pdfHeight > 0.0 && bands != []
    requires Cursor(|bands| - 1, pdfHeight) < scaledHeight <= Cursor(|bands|, pdfHeight)
    requires bands == LoopBands(|bands|, ratio, scaledHeight, pdfHeight)
    ensures Ceil(scaledHeight / pdfHeight) == |bands|
    ensures forall k :: 0 <= k < |bands| ==>
      && bands[k].sourceY == (k as real * pdfHeight / ratio) * Oversample
      && 0.0 < bands[k].contentHeight <= pdfHeight
      && bands[k].sourceHeight == (bands[k].contentHeight / ratio) * Oversample
    ensures bands[0].sourceY == 0.0
    ensures Contiguous(bands)
    ensures bands[|bands| - 1].sourceY + bands[|bands| - 1].sourceHeight == (scaledHeight / ratio) * Oversample
  {
    LoopCount(|bands|, scaledHeight, pdfHeight);
    LoopBandsShape(|bands|, ratio, scaledHeight, pdfHeight);
    LoopBandsContiguous(|bands|, ratio, scaledHeight, pdfHeight);
  }

  /** `` `${resumeData.contact.fullName || "Amit Gupta"}.pdf` ``: the empty string is the only false one. */
  function FileName(fullName: string): (r: string)
    ensures |r| >= 4 && r[|r| - 4..] == ".pdf"
    ensures r[..|r| - 4] == if fullName == "" then DefaultName else fullName
  {
    (if fullName != "" then fullName else DefaultName) + ".pdf"
  }

  /** After `clearData` the export falls back to the default name. */
  lemma ClearedRecordFileName(b: Resume.Builder)
    ensures FileName(Resume.ClearData(b).resume.contact.fullName) == DefaultName + ".pdf"
  {
    assert Resume.ClearData(b).resume.contact.fullName == "" by {
      assert Resume.Contact.Get(Resume.ClearData(b).resume.contact, Resume.Contact.FullName) == "";
    }
  }

  /** The sample record shown at mount exports under the sample contact's name, which is also the default. */
  lemma InitialFileName()
    ensures FileName(Resume.Initial.resume.contact.fullName) == "Amit Gupta.pdf"
  {
  }

  /**
   * `exportToPDF` on an A4 page: the file name and the bands drawn for a
   * canvas `canvasHeight` pixels tall. The content needs more than one page
   * exactly when the canvas is taller than A4's height-to-width ratio times
   * its width.
   */
  method ExportToPdf(d: Resume.ResumeData, canvasHeight: real)
    returns (fileName: string, bands: seq<Band>, addedPages: nat)
    requires canvasHeight >= 0.0
    ensures fileName == FileName(d.contact.fullName)
    ensures addedPages == |bands| - 1 && Tiles(bands, canvasHeight)
    ensures addedPages == 0 <==> canvasHeight <= CanvasWidth * A4Height / A4Width
    ensures forall k :: 0 <= k < |bands| ==> bands[k].contentHeight <= A4Height
  {
    bands, addedPages := Paginate(CanvasWidth, canvasHeight, A4Width, A4Height);
    fileName := FileName(d.contact.fullName);
  }
}
