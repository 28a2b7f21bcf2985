/**
 * Enrichment of raw time entries in `getTimeEntries`
 * (src/services/timeTrackingService.js): the project directory is indexed by id, then
 * every raw entry is mapped, one to one and in order, to an entry with a normalised
 * millisecond duration and the project's name and colour.
 */
module Enrichment {
  import opened JsValues
  import opened Entries
  import Durations

  /**
   * A time entry as the time-tracking API returns it. `durationText` is the ISO 8601
   * duration string, empty when absent; `projectId` and `description` are empty when
   * absent.
   */
  datatype RawEntry = RawEntry(
    id: string,
    interval: Option<Interval>,
    durationText: string,
    projectId: string,
    description: string)

  /** A project of the workspace; `color` is empty when the API gives none. */
  datatype Project = Project(id: string, name: string, color: string)

  /** The value stored in the project map for a project id. */
  datatype ProjectDetails = ProjectDetails(name: string, color: string)

  function DetailsOf(p: Project): (d: ProjectDetails)
    ensures d.name == p.name
    ensures d.color == (if p.color == "" then DefaultColor else p.color)
  {
    ProjectDetails(p.name, OrDefault(p.color, DefaultColor))
  }

  /**
   * The project map after `projects.reduce((map, project) => { map[project.id] = ... })`:
   * a later project with the same id overwrites an earlier one.
   */
  function Directory(projects: seq<Project>): map<string, ProjectDetails>
  {
    if projects == [] then map[]
    else
      var last := projects[|projects| - 1];
      Directory(projects[..|projects| - 1])[last.id := DetailsOf(last)]
  }

  /** No later project carries the id of `projects[i]`. */
  predicate IsLastWithId(projects: seq<Project>, i: int) {
    0 <= i < |projects| && forall j :: i < j < |projects| ==> projects[j].id != projects[i].id
  }

  /** The map has exactly the ids of the projects as keys. */
  lemma {:induction false} DirectoryKeys(projects: seq<Project>, id: string)
    ensures id in Directory(projects) <==> exists i :: 0 <= i < |projects| && projects[i].id == id
  {
    if projects != [] {
      var init := projects[..|projects| - 1];
      DirectoryKeys(init, id);
      if id in Directory(init) {
        var i :| 0 <= i < |init| && init[i].id == id;
        assert projects[i].id == id;
      }
      if exists i :: 0 <= i < |projects| && projects[i].id == id {
        var i :| 0 <= i < |projects| && projects[i].id == id;
        if i < |init| { assert init[i].id == id; }
      }
    }
  }

  /** Each id maps to the details of the last project carrying it. */
  lemma {:induction false} DirectoryValue(projects: seq<Project>, i: int)
    requires IsLastWithId(projects, i)
    ensures projects[i].id in Directory(projects)
    ensures Directory(projects)[projects[i].id] == DetailsOf(projects[i])
  {
    var init := projects[..|projects| - 1];
    if i < |init| {
      assert IsLastWithId(init, i) by {
        assert forall j :: i < j < |init| ==> init[j] == projects[j];
      }
      DirectoryValue(init, i);
      assert init[i] == projects[i];
    }
  }

  /** The reduce that builds the project map, one project at a time. */
  method BuildProjectMap(projects: seq<Project>) returns (m: map<string, ProjectDetails>)
    ensures m == Directory(projects)
  {
    m := map[];
    var i := 0;
    while i < |projects|
      invariant 0 <= i <= |projects|
      invariant m == Directory(projects[..i])
    {
      var project := projects[i];
      m := m[project.id := DetailsOf(project)];
      assert projects[..i + 1][..i] == projects[..i];
      i := i + 1;
    }
    assert projects[..i] == projects;
  }

  /** `entry.timeInterval && start && end`: a `null` end is as falsy as an absent one. */
  predicate HasBothEnds(e: RawEntry) {
    e.interval.Some? && e.interval.value.start.Some? && e.interval.value.end.At?
  }

  /**
   * The normalised duration: `end - start` when both ends of the interval are present
   * (not clamped, so negative when the end precedes the start), otherwise the parsed
   * duration string, otherwise 0.
   */
  function NormalizedDuration(e: RawEntry): (d: int)
    ensures d < 0 ==> HasBothEnds(e) && e.interval.value.end.ms < e.interval.value.start.value
    ensures HasBothEnds(e) ==> e.interval.value.start.value + d == e.interval.value.end.ms
    ensures !HasBothEnds(e) ==> d % 1000 == 0
    ensures !HasBothEnds(e) && FirstPTAbsent(e.durationText) ==> d == 0
  {
    if HasBothEnds(e) then e.interval.value.end.ms - e.interval.value.start.value
    else if e.durationText != "" then Durations.ParseDuration(e.durationText)
    else 0
  }

  predicate FirstPTAbsent(s: string) {
    Durations.FirstPT(s) < 0
  }

  /** Whether `entry.projectId && projectMap[entry.projectId]` is truthy. */
  predicate ResolvesProject(e: RawEntry, m: map<string, ProjectDetails>) {
    e.projectId != "" && e.projectId in m
  }

  /**
   * The enriched entry: raw fields carried over, duration normalised, project name and
   * colour from the map when the id resolves and the "No Project" defaults otherwise.
   */
  function Enrich(e: RawEntry, m: map<string, ProjectDetails>): (r: Entry)
    ensures r.id == e.id && r.interval == e.interval
    ensures r.projectId == e.projectId && r.description == e.description
    ensures r.duration == NormalizedDuration(e)
    ensures ResolvesProject(e, m) ==> r.projectName == m[e.projectId].name && r.projectColor == m[e.projectId].color
    ensures !ResolvesProject(e, m) ==> r.projectName == NoProject && r.projectColor == DefaultColor
  {
    var base := Entry(e.id, e.interval, NormalizedDuration(e), e.projectId, NoProject, DefaultColor, e.description);
    if ResolvesProject(e, m) then
      base.(projectName := m[e.projectId].name, projectColor := m[e.projectId].color)
    else base
  }

  /** `timeEntries.map(...)`: one enriched entry per raw entry, in the same order. */
  function EnrichAll(raws: seq<RawEntry>, m: map<string, ProjectDetails>): (es: seq<Entry>)
    ensures |es| == |raws|
    ensures forall i :: 0 <= i < |raws| ==> es[i].id == raws[i].id && es[i] == Enrich(raws[i], m)
  {
    seq(|raws|, i requires 0 <= i < |raws| => Enrich(raws[i], m))
  }

  /**
   * Enrichment against the fetched directory: an entry whose id names a project takes
   * the name and colour (default grey) of the last project with that id; any other entry
   * gets the "No Project" defaults.
   */
  lemma EnrichFromDirectory(projects: seq<Project>, e: RawEntry, i: nat)
    requires i < |projects| && projects[i].id == e.projectId && e.projectId != ""
    requires IsLastWithId(projects, i)
    ensures Enrich(e, Directory(projects)).projectName == projects[i].name
    ensures Enrich(e, Directory(projects)).projectColor == OrDefault(projects[i].color, DefaultColor)
  {
    DirectoryValue(projects, i);
  }

  lemma EnrichUnknownProject(projects: seq<Project>, e: RawEntry)
    requires forall j :: 0 <= j < |projects| ==> projects[j].id != e.projectId
    ensures Enrich(e, Directory(projects)).projectName == NoProject
    ensures Enrich(e, Directory(projects)).projectColor == DefaultColor
  {
    DirectoryKeys(projects, e.projectId);
  }

  /** `getTimeEntries` after its two fetches: index the projects, then enrich every entry. */
  method GetTimeEntries(projects: seq<Project>, raws: seq<RawEntry>) returns (entries: seq<Entry>)
    ensures entries == EnrichAll(raws, Directory(projects))
  {
    var projectMap := BuildProjectMap(projects);
    entries := EnrichAll(raws, projectMap);
  }
}
