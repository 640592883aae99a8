/** The record the dashboard extractor produces for one checklist line
    (`UpdateInfo` in the source) and the update class it may carry. */
module UpdateModel {
  import opened Wrappers

  /** The semantic-versioning class of an update. */
  datatype UpdateType = Major | Minor | Patch {
    /** The literal the dashboard text and the CLI use for this class. */
    function Name(): (r: string)
      ensures |r| == 5
    {
      match this
      case Major => "major"
      case Minor => "minor"
      case Patch => "patch"
    }
  }

  /** `z.enum(["major", "minor", "patch"])`: the class a literal names, if any. */
  function ParseUpdateType(s: string): (r: Option<UpdateType>)
    ensures r.Some? <==> s in {"major", "minor", "patch"}
    ensures r.Some? ==> r.value.Name() == s
  {
    if s == "major" then Some(Major)
    else if s == "minor" then Some(Minor)
    else if s == "patch" then Some(Patch)
    else None
  }

  /** Naming a class and parsing the name gives the class back. */
  lemma ParseName(t: UpdateType)
    ensures ParseUpdateType(t.Name()) == Some(t)
  {
  }

  /** One pending update; `None` stands for the source's `null`. */
  datatype UpdateInfo = UpdateInfo(
    dependency: Option<string>,
    fromVersion: Option<string>,
    toVersion: Option<string>,
    updateType: Option<UpdateType>,
    pullRequest: Option<string>,
    packages: seq<string>)

  /** JavaScript truthiness of an optional string: present and non-empty. */
  predicate Truthy(o: Option<string>) {
    o.Some? && o.value != ""
  }
}
