/**
 * The statements section of main.js: the list of statement titles
 * (`renderStatementSection`) and one statement's full text
 * (`loadStatementDetail`), both with their digits wrapped in spans.
 */
module Statements {
  import opened NumberMarkup

  /** An entry of the statements index. */
  datatype Statement = Statement(id: string, title: string)

  /** A list item: the `data-statement-id` and the title's `h3`. */
  datatype ListItem = ListItem(id: string, heading: Heading)

  /** `renderStatementSection`: one item per statement, in order. */
  function RenderStatementList(ss: seq<Statement>): (items: seq<ListItem>)
    ensures |items| == |ss|
    ensures forall i :: 0 <= i < |ss| ==> items[i].id == ss[i].id && items[i].heading == TitleHeading(ss[i].title)
  {
    seq(|ss|, i requires 0 <= i < |ss| => ListItem(ss[i].id, TitleHeading(ss[i].title)))
  }

  /** A statement's detail file: its title and its paragraphs. */
  datatype StatementDetail = StatementDetail(title: string, content: seq<string>)

  /** The rendered detail: the `h2` markup and one `p` markup per paragraph. */
  datatype DetailMarkup = DetailMarkup(heading: string, paragraphs: seq<string>)

  /** `loadStatementDetail` once the file is read: the title and each paragraph, digits wrapped. */
  function RenderStatementDetail(d: StatementDetail): (m: DetailMarkup)
    ensures |m.paragraphs| == |d.content|
    ensures m.heading == TitleHeading(d.title).html
    ensures forall i :: 0 <= i < |d.content| ==> m.paragraphs[i] == WrapNumbers(d.content[i])
  {
    DetailMarkup(
      WrapNumbers(d.title),
      seq(|d.content|, i requires 0 <= i < |d.content| => WrapNumbers(d.content[i])))
  }

  /**
   * Deleting the span markers from the rendered detail gives back the title and
   * every paragraph, in the original order.
   */
  lemma DetailRecoversText(d: StatementDetail)
    requires MarkerFree(d.title)
    requires forall i :: 0 <= i < |d.content| ==> MarkerFree(d.content[i])
    ensures Unwrap(RenderStatementDetail(d).heading) == d.title
    ensures forall i :: 0 <= i < |d.content| ==> Unwrap(RenderStatementDetail(d).paragraphs[i]) == d.content[i]
  {
    UnwrapWrapNumbers(d.title);
    forall i | 0 <= i < |d.content|
      ensures Unwrap(RenderStatementDetail(d).paragraphs[i]) == d.content[i]
    {
      UnwrapWrapNumbers(d.content[i]);
    }
  }

  /** Paragraphs without digits are shown exactly as written; those with digits are not. */
  lemma DetailPlainParagraphs(d: StatementDetail)
    ensures forall i :: 0 <= i < |d.content| ==>
      (RenderStatementDetail(d).paragraphs[i] == d.content[i] <==> !HasNumber(d.content[i]))
  {
    forall i | 0 <= i < |d.content|
      ensures RenderStatementDetail(d).paragraphs[i] == d.content[i] <==> !HasNumber(d.content[i])
    {
      WrapNumbersIdentity(d.content[i]);
    }
  }

  /** A title is marked up the same way in the list and in the detail view. */
  lemma ListAndDetailAgree(s: Statement, d: StatementDetail)
    requires s.title == d.title
    ensures RenderStatementList([s])[0].heading.html == RenderStatementDetail(d).heading
  {
  }
}
