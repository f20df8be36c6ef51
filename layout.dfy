/** The page layout the PDF library hands to the pipeline. Each page is an
    ordered list of lines; each line has the vertical position of its
    bounding box and an ordered list of text runs (spans). PDF blocks are
    already flattened away: a block without lines contributes nothing and the
    lines of the others follow one another in reading order, which is all the
    pipeline uses of them. */
module Layout {

  /** A text run with its font size rounded to an integer. */
  datatype Span = Span(text: string, size: int)

  /** A line: the top of its bounding box rounded to 0.1 and expressed in
      tenths of a unit, and its spans. */
  datatype Line = Line(y: int, spans: seq<Span>)

  datatype Page = Page(lines: seq<Line>)

  /** A document is its pages, in order; page k (0-based) is reported as k + 1. */
  type Document = seq<Page>
}
