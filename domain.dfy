/** Entities of the daily digest pipeline, as the bulk load returns them. */
module Domain {

  datatype Option<+T> = None | Some(value: T)

  /** JavaScript truthiness of an optional string: present and not empty. */
  predicate Truthy(s: Option<string>) {
    s.Some? && s.value != ""
  }

  /** A watch-item attached to a tag; only its text reaches the generator. */
  datatype Catalyst = Catalyst(content: string)

  /** A watched company or industry, with its catalysts in load order. */
  datatype Tag = Tag(id: string, name: string, catalysts: seq<Catalyst>)

  /** A user as loaded together with its tags; the email may be null. */
  datatype User = User(email: Option<string>, tags: seq<Tag>)

  /** The generator's structured answer; the summary may be missing. */
  datatype Assessment = Assessment(points: seq<string>, sentiment: string, summary: Option<string>)

  /** One entry of a user's digest list: the assessment spread together with the tag's name. */
  datatype DigestEntry = DigestEntry(name: string, assessment: Assessment)

  /** One tagAssessment row written to the database. */
  datatype AssessmentRow = AssessmentRow(tagId: string, points: seq<string>, sentiment: string, summary: Option<string>)

  /** The watch-item texts handed to the generator: the catalysts' contents, in catalyst order. */
  function CatalystContents(cs: seq<Catalyst>): (items: seq<string>)
    ensures |items| == |cs|
    ensures forall k :: 0 <= k < |cs| ==> items[k] == cs[k].content
  {
    if cs == [] then [] else [cs[0].content] + CatalystContents(cs[1..])
  }
}
