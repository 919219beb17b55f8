/** `get_image_tag` (dev_qa_compare.py:13-20): read one values file and return
    the value stored at `image.tag`, or one of the sentinels "Not Found" and
    "Error". */
module Extract {

  /** A parsed YAML document, restricted to the node kinds the lookup can
      meet: mappings keyed by strings, string scalars and null. */
  datatype Node =
    | Mapping(fields: map<string, Node>)
    | Str(text: string)
    | Null

  /** What opening and parsing one file gives: a document, or a failure of
      `open` or of `yaml.safe_load` (both are caught at line 18). An empty
      file parses to `Parsed(Null)`. */
  datatype Load = Parsed(doc: Node) | Unreadable

  const NotFound: string := "Not Found"
  const Error: string := "Error"

  /** The lookup throws: nothing was parsed, the document is not a mapping
      (`.get` is not defined on it), or its `image` entry is present but not a
      mapping. */
  predicate LookupFails(l: Load)
  {
    || l.Unreadable?
    || !l.doc.Mapping?
    || ("image" in l.doc.fields && !l.doc.fields["image"].Mapping?)
  }

  /** The lookup succeeds and `image.tag` is present. */
  predicate HasTag(l: Load)
  {
    && !LookupFails(l)
    && "image" in l.doc.fields
    && "tag" in l.doc.fields["image"].fields
  }

  /** `data.get('image', {}).get('tag', 'Not Found')` inside the `try` of
      lines 14-20; every exception becomes the string 'Error'. */
  function GetImageTag(l: Load): (r: Node)
    ensures HasTag(l) ==> r == l.doc.fields["image"].fields["tag"]
    ensures !LookupFails(l) && !HasTag(l) ==> r == Str(NotFound)
    ensures LookupFails(l) ==> r == Str(Error)
  {
    match l
    case Unreadable => Str(Error)
    case Parsed(Mapping(top)) =>
      var image := if "image" in top then top["image"] else Mapping(map[]);
      (match image
       case Mapping(inner) => if "tag" in inner then inner["tag"] else Str(NotFound)
       case _ => Str(Error))
    case Parsed(_) => Str(Error)
  }

  /** The lookup never lets an exception reach its caller: whatever the
      file holds, the result is one of the two sentinels or the value stored
      at `image.tag`, and a result that is neither sentinel is that value. */
  lemma OutcomesPartition(l: Load)
    ensures || GetImageTag(l) == Str(Error)
            || GetImageTag(l) == Str(NotFound)
            || (HasTag(l) && GetImageTag(l) == l.doc.fields["image"].fields["tag"])
    ensures GetImageTag(l) != Str(Error) && GetImageTag(l) != Str(NotFound) ==>
      HasTag(l) && GetImageTag(l) == l.doc.fields["image"].fields["tag"]
  {
  }

  /** "Error" comes back only from a failed lookup or from a tag whose value
      is literally the text "Error"; likewise for "Not Found". */
  lemma SentinelOrigins(l: Load)
    ensures GetImageTag(l) == Str(Error) ==>
      LookupFails(l) || (HasTag(l) && l.doc.fields["image"].fields["tag"] == Str(Error))
    ensures GetImageTag(l) == Str(NotFound) ==>
      (!LookupFails(l) && !HasTag(l)) || (HasTag(l) && l.doc.fields["image"].fields["tag"] == Str(NotFound))
  {
  }

  /** A tag that is found is returned unchanged, for every document shape
      around it. */
  lemma FoundTagExample(rest: map<string, Node>, tag: string)
    ensures GetImageTag(Parsed(Mapping(rest["image" := Mapping(map["tag" := Str(tag)])]))) == Str(tag)
  {
  }

  /** Concrete cases of each sentinel. */
  lemma LookupExamples()
    ensures GetImageTag(Parsed(Mapping(map[]))) == Str(NotFound)
    ensures GetImageTag(Parsed(Mapping(map["image" := Mapping(map["repository" := Str("app")])]))) == Str(NotFound)
    ensures GetImageTag(Parsed(Null)) == Str(Error)
    ensures GetImageTag(Parsed(Str("image"))) == Str(Error)
    ensures GetImageTag(Parsed(Mapping(map["image" := Null]))) == Str(Error)
    ensures GetImageTag(Parsed(Mapping(map["image" := Str("app:v1")]))) == Str(Error)
    ensures GetImageTag(Unreadable) == Str(Error)
  {
  }
}
