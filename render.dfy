/**
 * Rendering of one dataset row into the title, body and labels of the issue
 * that the startup sync posts for it (app/main.py, create_issues_from_csv).
 * Every cell is taken as an already-stringified value.
 */
module Render {

  /** One row of papers.csv. */
  datatype Row = Row(
    paperId: string,
    paper: string,
    coder: string,
    coderId: string,
    supervisor: string,
    supervisorId: string,
    paperCoder: string)

  /** The arguments of one call of post_github_issue: what the sync asks the tracker to create. */
  datatype PostRequest = PostRequest(title: string, body: string, labels: seq<string>)

  /** The issue title: paper id, a space, the coder, " + ", the supervisor. */
  function Title(row: Row): string
  {
    row.paperId + " " + row.coder + " + " + row.supervisor
  }

  /** One line of the body: a bold heading, a name, and an id in parentheses, then two spaces (a Markdown line break). */
  function FieldLine(heading: string, name: string, id: string): string
  {
    "\n<b>" + heading + ":</b> " + name + " (" + id + ")  "
  }

  /** The last line of the body: the case id, then a newline. */
  function CaseLine(caseId: string): string
  {
    "\n<b>Case ID:</b> " + caseId + "\n"
  }

  /** The issue body: paper, coder and supervisor lines, then the case id line. */
  function Body(row: Row): string
  {
    FieldLine("Paper", row.paper, row.paperId) +
    FieldLine("Coder", row.coder, row.coderId) +
    FieldLine("Supervisor", row.supervisor, row.supervisorId) +
    CaseLine(row.paperCoder)
  }

  /** The issue labels, in this order: paper id, coder id, supervisor id. */
  function Labels(row: Row): seq<string>
  {
    [row.paperId, row.coderId, row.supervisorId]
  }

  /** The request the sync emits for a row it does not skip. */
  function Request(row: Row): PostRequest
  {
    PostRequest(Title(row), Body(row), Labels(row))
  }

  /** The text of `s` before its first space (all of `s` when it has none). */
  function FirstWord(s: string): (w: string)
    ensures w <= s
    ensures ' ' !in w
    ensures |w| < |s| ==> s[|w|] == ' '
  {
    if s == [] || s[0] == ' ' then [] else [s[0]] + FirstWord(s[1..])
  }

  /** `f` occurs somewhere inside `s`. */
  ghost predicate Occurs(f: string, s: string)
  {
    exists k :: 0 <= k <= |s| && f <= s[k..]
  }

  lemma OccursInMiddle(a: string, f: string, b: string)
    ensures Occurs(f, a + f + b)
  {
    assert f <= (a + f + b)[|a|..];
  }

  /** The title depends on the paper id, the coder and the supervisor and on nothing else in the row. */
  lemma TitleDeterminedByKeyFields(r1: Row, r2: Row)
    requires r1.paperId == r2.paperId && r1.coder == r2.coder && r1.supervisor == r2.supervisor
    ensures Title(r1) == Title(r2)
  {
  }

  /** A paper id without spaces can be read back from the title: it is the title's first word. */
  lemma TitleStartsWithPaperId(row: Row)
    requires ' ' !in row.paperId
    ensures FirstWord(Title(row)) == row.paperId
  {
    var t, p := Title(row), row.paperId;
    var w := FirstWord(t);
    assert t[..|p|] == p && t[|p|] == ' ';
    assert |w| == |p|;
    assert w == t[..|w|];
  }

  /** Two rows whose paper ids contain no space and whose titles collide have the same paper id. */
  lemma SameTitleSamePaperId(r1: Row, r2: Row)
    requires ' ' !in r1.paperId && ' ' !in r2.paperId
    requires Title(r1) == Title(r2)
    ensures r1.paperId == r2.paperId
  {
    TitleStartsWithPaperId(r1);
    TitleStartsWithPaperId(r2);
  }

  /**
   * The converse of TitleDeterminedByKeyFields does not hold: a coder or supervisor
   * name that itself contains " + " lets two different assignments share a title.
   */
  lemma TitlesCanCollide()
    ensures exists r1: Row, r2: Row :: r1.coder != r2.coder && Title(r1) == Title(r2)
  {
    var r1 := Row("P1", "", "A + B", "", "C", "", "");
    var r2 := Row("P1", "", "A", "", "B + C", "", "");
    assert Title(r1) == Title(r2);
  }

  /**
   * Without the space-free condition two different papers can share a title: a space
   * inside the paper id can move across into the coder name.
   */
  lemma PaperIdsWithSpaceCanCollide()
    ensures exists r1: Row, r2: Row :: r1.paperId != r2.paperId && Title(r1) == Title(r2)
  {
    var r1 := Row("P 1", "", "A", "", "C", "", "");
    var r2 := Row("P", "", "1 A", "", "C", "", "");
    assert Title(r1) == Title(r2);
  }

  /**
   * Every request carries three labels: the paper id, which opens the title, then the
   * coder id and the supervisor id. When the paper id has no space it is the title's first word.
   */
  lemma RequestLabelsAgreeWithTitle(row: Row)
    ensures |Request(row).labels| == 3
    ensures Request(row).labels[0] == row.paperId && Request(row).labels[0] + " " <= Request(row).title
    ensures Request(row).labels[1] == row.coderId && Request(row).labels[2] == row.supervisorId
    ensures ' ' !in row.paperId ==> Request(row).labels[0] == FirstWord(Request(row).title)
  {
    if ' ' !in row.paperId {
      TitleStartsWithPaperId(row);
    }
  }

  lemma OccursBefore(f: string, s: string, post: string)
    requires Occurs(f, s)
    ensures Occurs(f, s + post)
  {
    var k :| 0 <= k <= |s| && f <= s[k..];
    assert f <= (s + post)[k..];
  }

  lemma OccursAfter(f: string, pre: string, s: string)
    requires Occurs(f, s)
    ensures Occurs(f, pre + s)
  {
    var k :| 0 <= k <= |s| && f <= s[k..];
    assert (pre + s)[|pre| + k..] == s[k..];
  }

  lemma FieldLineMentions(heading: string, name: string, id: string)
    ensures Occurs(name, FieldLine(heading, name, id))
    ensures Occurs(id, FieldLine(heading, name, id))
  {
    var a, b := "\n<b>" + heading + ":</b> ", " (" + id + ")  ";
    assert FieldLine(heading, name, id) == a + name + b;
    OccursInMiddle(a, name, b);
    var c, d := "\n<b>" + heading + ":</b> " + name + " (", ")  ";
    assert FieldLine(heading, name, id) == c + id + d;
    OccursInMiddle(c, id, d);
  }

  lemma CaseLineMentions(caseId: string)
    ensures Occurs(caseId, CaseLine(caseId))
  {
    OccursInMiddle("\n<b>Case ID:</b> ", caseId, "\n");
  }

  /** Every field of the row is written into the body. */
  lemma BodyInterpolatesEveryField(row: Row)
    ensures Occurs(row.paper, Body(row)) && Occurs(row.paperId, Body(row))
    ensures Occurs(row.coder, Body(row)) && Occurs(row.coderId, Body(row))
    ensures Occurs(row.supervisor, Body(row)) && Occurs(row.supervisorId, Body(row))
    ensures Occurs(row.paperCoder, Body(row))
  {
    var l1 := FieldLine("Paper", row.paper, row.paperId);
    var l2 := FieldLine("Coder", row.coder, row.coderId);
    var l3 := FieldLine("Supervisor", row.supervisor, row.supervisorId);
    var l4 := CaseLine(row.paperCoder);
    FieldLineMentions("Paper", row.paper, row.paperId);
    FieldLineMentions("Coder", row.coder, row.coderId);
    FieldLineMentions("Supervisor", row.supervisor, row.supervisorId);
    CaseLineMentions(row.paperCoder);
    forall f | f in [row.paper, row.paperId]
      ensures Occurs(f, Body(row))
    {
      OccursBefore(f, l1, l2);
      OccursBefore(f, l1 + l2, l3);
      OccursBefore(f, l1 + l2 + l3, l4);
    }
    forall f | f in [row.coder, row.coderId]
      ensures Occurs(f, Body(row))
    {
      OccursAfter(f, l1, l2);
      OccursBefore(f, l1 + l2, l3);
      OccursBefore(f, l1 + l2 + l3, l4);
    }
    forall f | f in [row.supervisor, row.supervisorId]
      ensures Occurs(f, Body(row))
    {
      OccursAfter(f, l1 + l2, l3);
      OccursBefore(f, l1 + l2 + l3, l4);
    }
    OccursAfter(row.paperCoder, l1 + l2 + l3, l4);
  }
}
