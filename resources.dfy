/** The resource classifier: bookmarked learning resources, classified once,
    when added, as a video or a course by looking at the URL. */
module Resources {
  import opened Lists
  import Text

  datatype ResourceType = Video | Course

  datatype Resource = Resource(
    id: int,
    title: string,
    url: string,
    kind: ResourceType,
    completed: bool,
    addedAt: string)

  function ResourceId(r: Resource): int {
    r.id
  }

  ghost predicate HasResource(resources: seq<Resource>, id: int) {
    exists i :: 0 <= i < |resources| && resources[i].id == id
  }

  const DefaultTitle: string := "Untitled Resource"

  /** The type a URL gets: `url.includes('youtube') || url.includes('youtu.be')`,
      matched case-sensitively. */
  function Classify(url: string): (r: ResourceType)
    ensures r == Video <==>
      exists i :: Text.OccursAt(url, "youtube", i) || Text.OccursAt(url, "youtu.be", i)
  {
    if Text.Includes(url, "youtube") || Text.Includes(url, "youtu.be") then Video else Course
  }

  /** `title.trim() || 'Untitled Resource'`: never blank; the default
      exactly when the typed title is blank. */
  function ResourceTitle(title: string): (r: string)
    ensures !Text.IsBlank(r)
    ensures Text.IsBlank(title) ==> r == DefaultTitle
    ensures !Text.IsBlank(title) ==> r == Text.Trim(title)
  {
    var trimmed := Text.Trim(title);
    if trimmed == [] then
      assert DefaultTitle[0] == 'U';
      DefaultTitle
    else
      trimmed
  }

  /** `addResource`: a blank URL changes nothing; otherwise a resource with
      the trimmed title (or the default title), the URL as typed, the
      inferred type, not completed and stamped `addedAt`, goes to the end. */
  function AddResource(resources: seq<Resource>, url: string, title: string, id: int, addedAt: string): (r: seq<Resource>)
    ensures Text.IsBlank(url) ==> r == resources
    ensures !Text.IsBlank(url) ==>
      && |r| == |resources| + 1 && r[..|resources|] == resources
      && r[|resources|].id == id && r[|resources|].url == url
      && r[|resources|].title == (if Text.IsBlank(title) then DefaultTitle else Text.Trim(title))
      && (r[|resources|].kind == Video <==>
            exists i :: Text.OccursAt(url, "youtube", i) || Text.OccursAt(url, "youtu.be", i))
      && !r[|resources|].completed && r[|resources|].addedAt == addedAt
  {
    if Text.IsBlank(url) then resources
    else resources + [Resource(id, ResourceTitle(title), url, Classify(url), false, addedAt)]
  }

  /** `toggleResource(id)`. */
  function ToggleResource(resources: seq<Resource>, id: int): (r: seq<Resource>)
    ensures |r| == |resources|
    ensures forall i :: 0 <= i < |resources| ==>
      && r[i].completed == (if resources[i].id == id then !resources[i].completed else resources[i].completed)
      && r[i].(completed := resources[i].completed) == resources[i]
  {
    Map(resources, (x: Resource) => if x.id == id then x.(completed := !x.completed) else x)
  }

  /** `deleteResource(id)`. */
  function DeleteResource(resources: seq<Resource>, id: int): (r: seq<Resource>)
    ensures |r| <= |resources|
    ensures forall i :: 0 <= i < |r| ==> r[i] in resources && r[i].id != id
    ensures forall i :: 0 <= i < |resources| && resources[i].id != id ==> resources[i] in r
  {
    Filter(resources, (x: Resource) => x.id != id)
  }

  // ---------------------------------------------------------------------
  // Properties
  // ---------------------------------------------------------------------

  /** A youtu.be short link is a video, an ordinary course page is a
      course. */
  lemma ClassifyExamples()
    ensures Classify("https://youtu.be/abc") == Video
    ensures Classify("https://example.com/course") == Course
  {
    assert Text.OccursAt("https://youtu.be/abc", "youtu.be", 8);
    NoYMeansNoYoutube("https://example.com/course");
  }

  /** Both markers start with 'y', so a URL without a 'y' is a course. */
  lemma NoYMeansNoYoutube(url: string)
    requires forall i :: 0 <= i < |url| ==> url[i] != 'y'
    ensures Classify(url) == Course
  {
    forall i
      ensures !Text.OccursAt(url, "youtube", i) && !Text.OccursAt(url, "youtu.be", i)
    {
      Text.NoOccurrenceWithoutFirstChar(url, "youtube", i);
      Text.NoOccurrenceWithoutFirstChar(url, "youtu.be", i);
    }
  }

  /** Matching is case-sensitive: an upper-case marker is not recognised. */
  lemma ClassifyIsCaseSensitive()
    ensures Classify("https://YOUTUBE.com/watch") == Course
  {
    NoYMeansNoYoutube("https://YOUTUBE.com/watch");
  }

  /** Toggling twice gives the list back, and toggling never changes a
      resource's type. */
  lemma ToggleResourceTwice(resources: seq<Resource>, id: int)
    ensures ToggleResource(ToggleResource(resources, id), id) == resources
    ensures forall i :: 0 <= i < |resources| ==> ToggleResource(resources, id)[i].kind == resources[i].kind
  {
    var once := ToggleResource(resources, id);
    var twice := ToggleResource(once, id);
    forall i | 0 <= i < |resources|
      ensures twice[i] == resources[i]
    {
      assert once[i].id == resources[i].id;
    }
  }

  /** Deletion keeps the surviving resources in their order. */
  lemma DeleteResourceAppend(a: seq<Resource>, b: seq<Resource>, id: int)
    ensures DeleteResource(a + b, id) == DeleteResource(a, id) + DeleteResource(b, id)
  {
    FilterAppend(a, b, (r: Resource) => r.id != id);
  }

  /** Operations addressed to a missing id change nothing; deleting twice is
      deleting once. */
  lemma ResourceNoOps(resources: seq<Resource>, id: int)
    ensures DeleteResource(DeleteResource(resources, id), id) == DeleteResource(resources, id)
    ensures !HasResource(resources, id) ==> ToggleResource(resources, id) == resources
    ensures !HasResource(resources, id) ==> DeleteResource(resources, id) == resources
  {
    FilterIdempotent(resources, (x: Resource) => x.id != id);
    if !HasResource(resources, id) {
      var toggled := ToggleResource(resources, id);
      assert forall i :: 0 <= i < |resources| ==> toggled[i] == resources[i];
      FilterKeepsAll(resources, (x: Resource) => x.id != id);
    }
  }

  /** A resource added with a fresh id keeps ids unique. */
  lemma AddResourceKeepsIds(resources: seq<Resource>, url: string, title: string, id: int, addedAt: string)
    requires UniqueKeys(resources, ResourceId) && !HasResource(resources, id)
    ensures UniqueKeys(AddResource(resources, url, title, id, addedAt), ResourceId)
  {
  }

  lemma ToggleResourceKeepsIds(resources: seq<Resource>, id: int)
    requires UniqueKeys(resources, ResourceId)
    ensures UniqueKeys(ToggleResource(resources, id), ResourceId)
  {
  }

  lemma DeleteResourceKeepsIds(resources: seq<Resource>, id: int)
    requires UniqueKeys(resources, ResourceId)
    ensures UniqueKeys(DeleteResource(resources, id), ResourceId)
  {
    FilterUniqueKeys(resources, (x: Resource) => x.id != id, ResourceId);
  }
}
