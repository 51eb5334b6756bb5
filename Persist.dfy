/**
 * The browser's `localStorage` as the editor and the dashboard use it: one key holding
 * the project index, and per project one key for its floor plan and one for its viewport
 * transform.  Values are kept as typed entries rather than JSON text.
 */
module Persist {
  import opened Wrappers
  import opened Graph
  import opened Viewport

  /** One record of the project index. */
  datatype Project = Project(id: string, name: string, createdAt: string, updatedAt: string,
                             nodeCount: nat)

  /** What a key holds once parsed. */
  datatype StoredValue =
    | ProjectList(projects: seq<Project>)
    | FloorEntry(plan: FloorPlan)
    | TransformEntry(transform: Transform)

  type Store = map<string, StoredValue>

  /** The key/value store shared by the dashboard and every editor. */
  class LocalStorage {
    var entries: Store

    constructor(initial: Store)
      ensures entries == initial
    {
      entries := initial;
    }

    /** `localStorage.setItem(key, value)` */
    method SetItem(key: string, value: StoredValue)
      modifies this
      ensures entries == old(entries)[key := value]
    {
      entries := entries[key := value];
    }

    /** `localStorage.removeItem(key)` */
    method RemoveItem(key: string)
      modifies this
      ensures entries == old(entries) - {key}
    {
      entries := entries - {key};
    }
  }

  const ProjectsKey: string := "floor_map_projects"

  /** `floor_map_data_${projectId}`: a fixed prefix, then the id, which can be read back. */
  function DataKey(projectId: string): (r: string)
    ensures |r| == 15 + |projectId| && r[..15] == "floor_map_data_" && r[15..] == projectId
  {
    "floor_map_data_" + projectId
  }

  /** `floor_map_transform_${projectId}`: a fixed prefix, then the id, which can be read back. */
  function TransformKey(projectId: string): (r: string)
    ensures |r| == 20 + |projectId| && r[..20] == "floor_map_transform_" && r[20..] == projectId
  {
    "floor_map_transform_" + projectId
  }

  /** The three kinds of key never collide: they differ at their eleventh character. */
  lemma KeysDistinct(a: string, b: string)
    ensures DataKey(a) != TransformKey(b)
    ensures DataKey(a) != ProjectsKey && TransformKey(a) != ProjectsKey
  {
    assert DataKey(a)[10] == 'd';
    assert TransformKey(b)[10] == 't';
    assert ProjectsKey[10] == 'p';
  }

  /** Different projects never share a data key or a transform key. */
  lemma KeysInjective(a: string, b: string)
    ensures DataKey(a) == DataKey(b) ==> a == b
    ensures TransformKey(a) == TransformKey(b) ==> a == b
  {
    assert DataKey(a)[15..] == a && DataKey(b)[15..] == b;
    assert TransformKey(a)[20..] == a && TransformKey(b)[20..] == b;
  }

  /** `JSON.parse(localStorage.getItem('floor_map_projects') || '[]')` */
  function ReadProjects(store: Store): (r: seq<Project>)
    ensures ProjectsKey !in store ==> r == []
    ensures ProjectsKey in store && store[ProjectsKey].ProjectList? ==> r == store[ProjectsKey].projects
  {
    if ProjectsKey in store && store[ProjectsKey].ProjectList? then store[ProjectsKey].projects else []
  }

  /** What is written under the index key is what a later read gives back. */
  lemma ReadProjectsAfterWrite(store: Store, ps: seq<Project>)
    ensures ReadProjects(store[ProjectsKey := ProjectList(ps)]) == ps
  {
  }

  /** After a project is deleted, the index reads back as the remaining records. */
  lemma ReadProjectsAfterDelete(store: Store, ps: seq<Project>, projectId: string)
    ensures ReadProjects(AfterDelete(store, ps, projectId)) == ps
  {
  }

  /** Removing a project's floor plan and transform leaves the index as it was. */
  lemma ReadProjectsAfterClear(store: Store, projectId: string)
    ensures ReadProjects(ClearProjectData(store, projectId)) == ReadProjects(store)
  {
    KeysDistinct(projectId, projectId);
  }

  predicate HasProject(ps: seq<Project>, id: string) {
    exists j :: 0 <= j < |ps| && ps[j].id == id
  }

  /** `projects.findIndex(p => p.id === id)`, None for -1. */
  function FindProjectIndex(ps: seq<Project>, id: string): (r: Option<nat>)
    ensures r.None? <==> !HasProject(ps, id)
    ensures r.Some? ==> r.value < |ps| && ps[r.value].id == id &&
                        forall j :: 0 <= j < r.value ==> ps[j].id != id
  {
    if |ps| == 0 then None
    else if ps[0].id == id then Some(0)
    else
      match FindProjectIndex(ps[1..], id)
      case None => None
      case Some(j) => Some(j + 1)
  }

  /** `projects.filter(p => p.id !== id)` */
  function RemoveProject(ps: seq<Project>, id: string): (r: seq<Project>)
    ensures |r| <= |ps|
    ensures forall p :: p in r <==> p in ps && p.id != id
  {
    if |ps| == 0 then []
    else if ps[0].id == id then RemoveProject(ps[1..], id)
    else [ps[0]] + RemoveProject(ps[1..], id)
  }

  /** The filter works piece by piece, so the records kept stay in their order. */
  lemma {:induction false} RemoveProjectAppend(xs: seq<Project>, ys: seq<Project>, id: string)
    ensures RemoveProject(xs + ys, id) == RemoveProject(xs, id) + RemoveProject(ys, id)
  {
    if |xs| > 0 {
      assert (xs + ys)[0] == xs[0];
      assert (xs + ys)[1..] == xs[1..] + ys;
      RemoveProjectAppend(xs[1..], ys, id);
      var head := if xs[0].id == id then [] else [xs[0]];
      assert RemoveProject(xs, id) == head + RemoveProject(xs[1..], id);
      assert RemoveProject(xs + ys, id) == head + (RemoveProject(xs[1..], id) + RemoveProject(ys, id));
    } else {
      assert xs + ys == ys;
    }
  }

  /** Removing an id nobody has changes nothing. */
  lemma {:induction false} RemoveProjectAbsent(ps: seq<Project>, id: string)
    requires !HasProject(ps, id)
    ensures RemoveProject(ps, id) == ps
  {
    if |ps| > 0 {
      assert !HasProject(ps[1..], id) by {
        forall j | 0 <= j < |ps[1..]| ensures ps[1..][j].id != id {
          assert ps[1..][j] == ps[j + 1];
        }
      }
      RemoveProjectAbsent(ps[1..], id);
      assert ps == [ps[0]] + ps[1..];
    }
  }

  /** After a removal no record has the id, so removing again changes nothing. */
  lemma RemoveProjectIdempotent(ps: seq<Project>, id: string)
    ensures RemoveProject(RemoveProject(ps, id), id) == RemoveProject(ps, id)
  {
    var r := RemoveProject(ps, id);
    assert !HasProject(r, id) by {
      forall j | 0 <= j < |r| ensures r[j].id != id {
        assert r[j] in r;
      }
    }
    RemoveProjectAbsent(r, id);
  }

  /**
   * The metadata refresh: the first record with the id gets the new `updatedAt` and
   * `nodeCount`; with no such record the list is returned as it was.
   */
  function RefreshMetadata(ps: seq<Project>, id: string, nodeCount: nat, now: string): (r: seq<Project>)
    ensures |r| == |ps|
    ensures !HasProject(ps, id) ==> r == ps
    ensures forall j :: 0 <= j < |r| ==>
              r[j].id == ps[j].id && r[j].name == ps[j].name && r[j].createdAt == ps[j].createdAt
    ensures forall j :: 0 <= j < |r| && r[j] != ps[j] ==>
              FindProjectIndex(ps, id) == Some(j) && r[j].updatedAt == now && r[j].nodeCount == nodeCount
  {
    match FindProjectIndex(ps, id)
    case None => ps
    case Some(j) => ps[j := ps[j].(updatedAt := now, nodeCount := nodeCount)]
  }

  /** After a refresh the matching record carries the count, and a second refresh repeats it. */
  lemma RefreshMetadataRecords(ps: seq<Project>, id: string, nodeCount: nat, now: string)
    requires HasProject(ps, id)
    ensures var r := RefreshMetadata(ps, id, nodeCount, now);
            var j := FindProjectIndex(ps, id).value;
            r[j].nodeCount == nodeCount && r[j].updatedAt == now &&
            FindProjectIndex(r, id) == Some(j) &&
            RefreshMetadata(r, id, nodeCount, now) == r
  {
    var r := RefreshMetadata(ps, id, nodeCount, now);
    var j := FindProjectIndex(ps, id).value;
    FindProjectIndexSameIds(ps, r, id);
  }

  /** `findIndex` only looks at ids. */
  lemma {:induction false} FindProjectIndexSameIds(ps: seq<Project>, qs: seq<Project>, id: string)
    requires |ps| == |qs|
    requires forall j :: 0 <= j < |ps| ==> ps[j].id == qs[j].id
    ensures FindProjectIndex(ps, id) == FindProjectIndex(qs, id)
  {
    if |ps| > 0 {
      FindProjectIndexSameIds(ps[1..], qs[1..], id);
    }
  }

  /** The floor plan and the transform of a project are gone; every other key is as it was. */
  function ClearProjectData(store: Store, projectId: string): (r: Store)
    ensures DataKey(projectId) !in r && TransformKey(projectId) !in r
    ensures forall k :: k != DataKey(projectId) && k != TransformKey(projectId) ==>
              (k in r <==> k in store) && (k in r ==> r[k] == store[k])
  {
    store - {DataKey(projectId), TransformKey(projectId)}
  }

  /**
   * The store after a project is deleted: the index holds `remaining`, the project's
   * floor plan and transform are gone, every other key is as it was.
   */
  function AfterDelete(store: Store, remaining: seq<Project>, projectId: string): (r: Store)
    ensures ProjectsKey in r && r[ProjectsKey] == ProjectList(remaining)
    ensures DataKey(projectId) !in r && TransformKey(projectId) !in r
    ensures forall k :: k != ProjectsKey && k != DataKey(projectId) && k != TransformKey(projectId) ==>
              (k in r <==> k in store) && (k in r ==> r[k] == store[k])
  {
    KeysDistinct(projectId, projectId);
    ClearProjectData(store[ProjectsKey := ProjectList(remaining)], projectId)
  }

  /** Deleting one project leaves the stored data of every other project alone. */
  lemma AfterDeleteKeepsOtherProjects(store: Store, remaining: seq<Project>, projectId: string, other: string)
    requires other != projectId
    ensures var r := AfterDelete(store, remaining, projectId);
            && (DataKey(other) in r <==> DataKey(other) in store)
            && (DataKey(other) in r ==> r[DataKey(other)] == store[DataKey(other)])
            && (TransformKey(other) in r <==> TransformKey(other) in store)
            && (TransformKey(other) in r ==> r[TransformKey(other)] == store[TransformKey(other)])
  {
    KeysDistinct(other, projectId);
    KeysDistinct(projectId, other);
    KeysInjective(other, projectId);
  }
}
