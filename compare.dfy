/** The `compare` column (dev_qa_compare.py:56-60): 'Match' when the two tags
    are equal, else 'Dev > QA' when the dev tag is greater, else 'Dev < QA'.
    The comparison is Python's on the values `get_image_tag` returned, so
    strings are ordered by code point and the sentinels are ordinary strings. */
module Compare {
  import opened Wrappers
  import opened LexOrder
  import opened Extract
  import opened Discovery

  datatype Verdict = Match | DevGreater | DevLess

  /** The text written into the `compare` column. */
  function Label(v: Verdict): (s: string)
    ensures v == Match <==> s == "Match"
    ensures v == DevGreater <==> s == "Dev > QA"
    ensures v == DevLess <==> s == "Dev < QA"
  {
    match v
    case Match => "Match"
    case DevGreater => "Dev > QA"
    case DevLess => "Dev < QA"
  }

  /** Python's `x > y` on two values: defined on two strings, a `TypeError`
      (None) for a mapping or None against anything else. */
  function PyGreater(x: Node, y: Node): (r: Option<bool>)
    ensures r.Some? <==> x.Str? && y.Str?
    ensures r.Some? ==> (r.value <==> Less(y.text, x.text))
  {
    match (x, y)
    case (Str(a), Str(b)) => Some(Less(b, a))
    case _ => None
  }

  /** The rule of lines 57-59 on two string tags. Exactly one verdict holds
      and each names its relation between the tags. */
  function Classify(dev: string, qa: string): (v: Verdict)
    ensures v == Match <==> dev == qa
    ensures v == DevGreater <==> Less(qa, dev)
    ensures v == DevLess <==> Less(dev, qa)
  {
    Trichotomy(dev, qa);
    if dev == qa then Match
    else if Less(qa, dev) then DevGreater
    else DevLess
  }

  /** The lambda of lines 57-59 on one row's two tag values. None stands for
      the `TypeError` that `>` raises on two unequal values that are not both
      strings; it ends the run. */
  function CompareTags(dev: Node, qa: Node): (r: Option<Verdict>)
    ensures dev == qa ==> r == Some(Match)
    ensures dev.Str? && qa.Str? ==> r == Some(Classify(dev.text, qa.text))
    ensures r.None? <==> dev != qa && !(dev.Str? && qa.Str?)
  {
    if dev == qa then Some(Match)
    else
      match PyGreater(dev, qa)
      case None => None
      case Some(greater) => Some(if greater then DevGreater else DevLess)
  }

  /** `df.apply(..., axis=1)` over the table: the verdict of every row, or
      None when the lambda raises on some row. */
  function CompareColumn(rows: seq<Row>): (r: Option<seq<Verdict>>)
    ensures r.Some? <==> forall i :: 0 <= i < |rows| ==> CompareTags(rows[i].devTag, rows[i].qaTag).Some?
    ensures r.Some? ==> |r.value| == |rows|
    ensures r.Some? ==> forall i :: 0 <= i < |rows| ==> CompareTags(rows[i].devTag, rows[i].qaTag) == Some(r.value[i])
    decreases |rows|
  {
    if rows == [] then Some([])
    else
      var init := rows[..|rows| - 1];
      var last := rows[|rows| - 1];
      assert forall i :: 0 <= i < |init| ==> init[i] == rows[i];
      match (CompareColumn(init), CompareTags(last.devTag, last.qaTag))
      case (Some(vs), Some(v)) => Some(vs + [v])
      case _ => None
  }

  /** Swapping the environments swaps the two inequality verdicts. */
  lemma ClassifySwap(dev: string, qa: string)
    ensures Classify(dev, qa) == Match <==> Classify(qa, dev) == Match
    ensures Classify(dev, qa) == DevGreater <==> Classify(qa, dev) == DevLess
  {
  }

  /** Two string tags are always comparable; the only failing rows are those
      with a non-string tag on an unequal side. */
  lemma StringTagsCompare(rows: seq<Row>)
    requires forall i :: 0 <= i < |rows| ==> rows[i].devTag.Str? && rows[i].qaTag.Str?
    ensures CompareColumn(rows).Some?
    ensures forall i :: 0 <= i < |rows| ==>
      CompareColumn(rows).value[i] == Classify(rows[i].devTag.text, rows[i].qaTag.text)
  {
  }

  /** Worked cases: equal tags, a version tag that is lexically but not
      numerically greater, and a sentinel on one side. */
  lemma ClassifyExamples()
    ensures Classify("v1.2.0", "v1.2.0") == Match
    ensures Classify("v2", "v10") == DevGreater
    ensures Classify("v3", Error) == DevGreater
    ensures Classify(Error, NotFound) == DevLess
    ensures Label(Classify("v10", "v2")) == "Dev < QA"
  {
    VersionExamples();
    SentinelExamples();
  }

  /** A null tag equals only a null tag; against a string it stops the run. */
  lemma NullTagExamples()
    ensures CompareTags(Null, Null) == Some(Match)
    ensures CompareTags(Null, Str("v1")) == None
    ensures CompareTags(Str(NotFound), Null) == None
  {
  }
}
