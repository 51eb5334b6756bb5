/**
 * The floor-map editor of one project: the floor plan being edited, the viewport
 * transform, the interaction mode, the selected node, the node a connection starts from,
 * and the state of a drag.  Each handler of the editor is a method that updates these
 * fields; what it computes is stated in terms of the functions of `Graph` and `Viewport`,
 * whose properties are proved there.
 */
module Editor {
  import opened Wrappers
  import opened Graph
  import opened Viewport
  import opened Persist

  /** `'select' | 'node' | 'connect' | 'pan'` */
  datatype Mode = Select | PlaceNode | Connect | Pan

  /** A snapshot of every field a handler may change. */
  datatype EditorState = EditorState(
    floor: FloorPlan,
    transform: Transform,
    mode: Mode,
    selected: Option<NodeId>,
    connectionStart: Option<NodeId>,
    isDragging: bool,
    dragStart: Point,
    usePercentage: bool,
    hasImage: bool)

  /** JavaScript truthiness of a nullable id: neither null nor the empty string. */
  predicate Truthy(o: Option<NodeId>) {
    o.Some? && o.value != ""
  }

  const UntitledProject: string := "Untitled Project"
  const DefaultFloorName: string := "Ground floor"

  /** The floor plan a project without saved data starts with. */
  function DefaultFloor(floorId: string, projectId: string): (r: FloorPlan)
    ensures r.id == floorId && r.projectId == projectId && r.name == "Ground floor"
    ensures r.level == 0 && r.nodes == []
  {
    FloorPlan(floorId, projectId, DefaultFloorName, 0, [])
  }

  /** The saved floor plan of the project, or a fresh empty one with id `floorId`. */
  function LoadFloor(store: Store, projectId: string, floorId: string): (r: FloorPlan)
    ensures DataKey(projectId) in store && store[DataKey(projectId)].FloorEntry? ==>
              r == store[DataKey(projectId)].plan
    ensures DataKey(projectId) !in store ==> r == DefaultFloor(floorId, projectId)
  {
    var key := DataKey(projectId);
    if key in store && store[key].FloorEntry? then store[key].plan else DefaultFloor(floorId, projectId)
  }

  /** The saved transform of the project, or the identity. */
  function LoadTransform(store: Store, projectId: string): (r: Transform)
    ensures TransformKey(projectId) in store && store[TransformKey(projectId)].TransformEntry? ==>
              r == store[TransformKey(projectId)].transform
    ensures TransformKey(projectId) !in store ==> r == Identity
  {
    var key := TransformKey(projectId);
    if key in store && store[key].TransformEntry? then store[key].transform else Identity
  }

  /** The name shown in the header: the first indexed record's name, or "Untitled Project". */
  function ProjectTitle(store: Store, projectId: string): (r: string)
    ensures !HasProject(ReadProjects(store), projectId) ==> r == UntitledProject
    ensures HasProject(ReadProjects(store), projectId) ==>
              exists j :: 0 <= j < |ReadProjects(store)| && ReadProjects(store)[j].id == projectId &&
                          ReadProjects(store)[j].name == r &&
                          forall j' :: 0 <= j' < j ==> ReadProjects(store)[j'].id != projectId
  {
    var ps := ReadProjects(store);
    match FindProjectIndex(ps, projectId)
    case None => UntitledProject
    case Some(j) => ps[j].name
  }

  /** Once the local store is cleared, loading the project gives back the fresh state. */
  lemma LoadAfterClear(store: Store, projectId: string, floorId: string)
    ensures LoadFloor(ClearProjectData(store, projectId), projectId, floorId) == DefaultFloor(floorId, projectId)
    ensures LoadTransform(ClearProjectData(store, projectId), projectId) == Identity
  {
  }

  class Editor {
    const projectId: string
    const storage: LocalStorage
    const projectName: string
    var floor: FloorPlan
    var transform: Transform
    var mode: Mode
    var selected: Option<NodeId>
    var connectionStart: Option<NodeId>
    var isDragging: bool
    var dragStart: Point
    var usePercentage: bool
    /** Whether an image is shown, and so whether `imageRef.current` is set. */
    var hasImage: bool

    function State(): EditorState
      reads this
    {
      EditorState(floor, transform, mode, selected, connectionStart, isDragging, dragStart,
                  usePercentage, hasImage)
    }

    /** Every transform the editor produces keeps the scale at or above 0.1. */
    ghost predicate Valid()
      reads this
    {
      transform.scale >= MinScale
    }

    /**
     * Mounting the editor: the floor plan and transform come from the store (`floorId`
     * is the id a fresh floor plan gets), every other field starts at its default.
     */
    constructor(projectId: string, storage: LocalStorage, floorId: string)
      requires LoadTransform(storage.entries, projectId).scale >= MinScale
      ensures Valid()
      ensures this.projectId == projectId && this.storage == storage
      ensures projectName == ProjectTitle(storage.entries, projectId)
      ensures State() == EditorState(LoadFloor(storage.entries, projectId, floorId),
                                     LoadTransform(storage.entries, projectId), Select, None, None,
                                     false, Point(0.0, 0.0), true, false)
    {
      this.projectId := projectId;
      this.storage := storage;
      projectName := ProjectTitle(storage.entries, projectId);
      floor := LoadFloor(storage.entries, projectId, floorId);
      transform := LoadTransform(storage.entries, projectId);
      mode := Select;
      selected := None;
      connectionStart := None;
      isDragging := false;
      dragStart := Point(0.0, 0.0);
      usePercentage := true;
      hasImage := false;
    }

    /** A toolbar mode button: only the mode changes. */
    method SetMode(m: Mode)
      requires Valid()
      modifies this
      ensures Valid()
      ensures State() == old(State()).(mode := m)
    {
      mode := m;
    }

    /** The "% Coords" checkbox: only the flag changes; stored coordinates are not converted. */
    method SetUsePercentage(checked: bool)
      requires Valid()
      modifies this
      ensures Valid()
      ensures State() == old(State()).(usePercentage := checked)
    {
      usePercentage := checked;
    }

    /** `handleWheel`: zoom about the cursor, given relative to the container. */
    method HandleWheel(cursor: Point, deltaY: real)
      requires Valid()
      modifies this
      ensures Valid()
      ensures State() == old(State()).(transform := WheelZoom(old(transform), cursor, deltaY))
      ensures Unproject(transform, cursor) == Unproject(old(transform), cursor)
    {
      WheelZoomKeepsCursorPoint(transform, cursor, deltaY);
      transform := WheelZoom(transform, cursor, deltaY);
    }

    /** `startPan`: a drag begins in pan mode, with the middle button, or with shift held. */
    method StartPan(client: Point, button: int, shiftKey: bool)
      requires Valid()
      modifies this
      ensures Valid()
      ensures (old(mode) == Pan || button == 1 || shiftKey) ==>
                State() == old(State()).(isDragging := true, dragStart := DragOrigin(old(transform), client))
      ensures !(old(mode) == Pan || button == 1 || shiftKey) ==> State() == old(State())
    {
      if mode == Pan || button == 1 || shiftKey {
        isDragging := true;
        dragStart := DragOrigin(transform, client);
      }
    }

    /** `doPan`: while dragging the offset follows the pointer; otherwise nothing changes. */
    method DoPan(client: Point)
      requires Valid()
      modifies this
      ensures Valid()
      ensures old(isDragging) ==> State() == old(State()).(transform := PanTo(old(transform), old(dragStart), client))
      ensures !old(isDragging) ==> State() == old(State())
    {
      if isDragging {
        transform := PanTo(transform, dragStart, client);
      }
    }

    /** `endPan`, on mouse up and on mouse leave. */
    method EndPan()
      requires Valid()
      modifies this
      ensures Valid()
      ensures State() == old(State()).(isDragging := false)
    {
      isDragging := false;
    }

    /**
     * `handleContainerClick` at `click` (relative to the container) over an image of
     * width `w` and height `h`: in node mode, not dragging, with an image shown and the
     * click inside it, a node with id `newId` is appended at the stored position and
     * selected.  Otherwise nothing changes.
     */
    method HandleContainerClick(click: Point, w: real, h: real, newId: NodeId)
      requires Valid()
      requires usePercentage ==> w != 0.0 && h != 0.0
      requires !HasNode(floor.nodes, newId)
      modifies this
      ensures Valid()
      ensures var p := Placement(old(transform), click, w, h, old(usePercentage));
              if !old(isDragging) && old(mode) == PlaceNode && old(hasImage) && p.Some? then
                State() == old(State()).(
                  floor := old(floor).(nodes := AddNode(old(floor.nodes), newId, old(floor.id), p.value.x, p.value.y)),
                  selected := Some(newId))
              else
                State() == old(State())
      ensures WellFormed(old(floor.nodes)) ==> WellFormed(floor.nodes)
    {
      if isDragging {
        return;
      }
      if mode == PlaceNode && hasImage {
        var p := Placement(transform, click, w, h, usePercentage);
        if p.Some? {
          if WellFormed(floor.nodes) {
            AddNodeKeepsWellFormed(floor.nodes, newId, floor.id, p.value.x, p.value.y);
          }
          floor := floor.(nodes := AddNode(floor.nodes, newId, floor.id, p.value.x, p.value.y));
          selected := Some(newId);
        }
      }
    }

    /**
     * `handleNodeClick`.  In connect mode the first click picks the start node, a click
     * on the start node again cancels, and a click on another node connects the two and
     * clears the start; the selection is left alone.  In every other mode the click
     * selects the node and clears the start.
     */
    method HandleNodeClick(id: NodeId)
      requires Valid()
      modifies this
      ensures Valid()
      ensures old(mode) == Connect && !Truthy(old(connectionStart)) ==>
                State() == old(State()).(connectionStart := Some(id))
      ensures old(mode) == Connect && Truthy(old(connectionStart)) && old(connectionStart).value == id ==>
                State() == old(State()).(connectionStart := None)
      ensures old(mode) == Connect && Truthy(old(connectionStart)) && old(connectionStart).value != id ==>
                State() == old(State()).(
                  floor := old(floor).(nodes := CreateConnection(old(floor.nodes), old(connectionStart).value, id)),
                  connectionStart := None)
      ensures old(mode) != Connect ==> State() == old(State()).(selected := Some(id), connectionStart := None)
      ensures NoSelfEdges(old(floor.nodes)) ==> NoSelfEdges(floor.nodes)
      ensures WellFormed(old(floor.nodes)) ==> WellFormed(floor.nodes)
    {
      if mode == Connect {
        if !Truthy(connectionStart) {
          connectionStart := Some(id);
        } else {
          if connectionStart.value == id {
            connectionStart := None;
            return;
          }
          var start := connectionStart.value;
          if NoSelfEdges(floor.nodes) {
            CreateConnectionKeepsNoSelfEdges(floor.nodes, start, id);
          }
          if WellFormed(floor.nodes) {
            CreateConnectionKeepsWellFormed(floor.nodes, start, id);
          }
          floor := floor.(nodes := CreateConnection(floor.nodes, start, id));
          connectionStart := None;
        }
      } else {
        selected := Some(id);
        connectionStart := None;
      }
    }

    /** `updateNode` from the node panel: rename or retype the nodes with the id. */
    method UpdateNode(id: NodeId, edit: NodeEdit)
      requires Valid()
      modifies this
      ensures Valid()
      ensures State() == old(State()).(floor := old(floor).(nodes := Graph.UpdateNode(old(floor.nodes), id, edit)))
      ensures WellFormed(old(floor.nodes)) ==> WellFormed(floor.nodes)
    {
      if WellFormed(floor.nodes) {
        UpdateNodeKeepsWellFormed(floor.nodes, id, edit);
      }
      floor := floor.(nodes := Graph.UpdateNode(floor.nodes, id, edit));
    }

    /**
     * `deleteNode`: the node and every connection to it go; the selection is cleared
     * only if it was that node, and the connection start is kept.
     */
    method DeleteNode(id: NodeId)
      requires Valid()
      modifies this
      ensures Valid()
      ensures State() == old(State()).(
                floor := old(floor).(nodes := Graph.DeleteNode(old(floor.nodes), id)),
                selected := if old(selected) == Some(id) then None else old(selected))
      ensures WellFormed(old(floor.nodes)) ==> WellFormed(floor.nodes)
    {
      if WellFormed(floor.nodes) {
        DeleteNodeKeepsWellFormed(floor.nodes, id);
      }
      floor := floor.(nodes := Graph.DeleteNode(floor.nodes, id));
      if selected == Some(id) {
        selected := None;
      }
    }

    /** The floor name field. */
    method SetFloorName(name: string)
      requires Valid()
      modifies this
      ensures Valid()
      ensures State() == old(State()).(floor := old(floor).(name := name))
    {
      floor := floor.(name := name);
    }

    /** The floor level field: `parseInt(value) || 0`, with `parsed` None when NaN. */
    method SetFloorLevel(parsed: Option<int>)
      requires Valid()
      modifies this
      ensures Valid()
      ensures State() == old(State()).(floor := old(floor).(level := parsed.GetOr(0)))
    {
      floor := floor.(level := parsed.GetOr(0));
    }

    method ZoomInButton()
      requires Valid()
      modifies this
      ensures Valid()
      ensures State() == old(State()).(transform := ZoomIn(old(transform)))
    {
      transform := ZoomIn(transform);
    }

    method ZoomOutButton()
      requires Valid()
      modifies this
      ensures Valid()
      ensures State() == old(State()).(transform := ZoomOut(old(transform)))
    {
      transform := ZoomOut(transform);
    }

    method ResetView()
      requires Valid()
      modifies this
      ensures Valid()
      ensures State() == old(State()).(transform := Identity)
    {
      transform := Identity;
    }

    /** The upload's `onload`: the image is shown and the view is reset. */
    method ImageLoaded()
      requires Valid()
      modifies this
      ensures Valid()
      ensures State() == old(State()).(hasImage := true, transform := Identity)
    {
      hasImage := true;
      transform := Identity;
    }

    /** The saved image arrives after mounting: it is shown, the view is kept. */
    method ImageRestored()
      requires Valid()
      modifies this
      ensures Valid()
      ensures State() == old(State()).(hasImage := true)
    {
      hasImage := true;
    }

    /**
     * `handleClearStorage`, once confirmed: the project's floor plan and transform keys
     * are removed, and the editor returns to an empty floor plan with id `floorId`, no
     * image, the identity view, no selection and no connection start.
     */
    method ClearStorage(floorId: string)
      requires Valid()
      modifies this, storage
      ensures Valid()
      ensures storage.entries == ClearProjectData(old(storage.entries), projectId)
      ensures State() == old(State()).(floor := DefaultFloor(floorId, projectId), hasImage := false,
                                       transform := Identity, selected := None, connectionStart := None)
    {
      storage.RemoveItem(DataKey(projectId));
      storage.RemoveItem(TransformKey(projectId));
      floor := DefaultFloor(floorId, projectId);
      hasImage := false;
      transform := Identity;
      selected := None;
      connectionStart := None;
    }

    /**
     * The metadata effect: the project's index record gets the time `now` and the
     * current node count; a project missing from the index leaves the store alone.
     */
    method SyncMetadata(now: string)
      requires Valid()
      modifies storage
      ensures Valid()
      ensures var ps := ReadProjects(old(storage.entries));
              if HasProject(ps, projectId) then
                storage.entries == old(storage.entries)[ProjectsKey :=
                  ProjectList(RefreshMetadata(ps, projectId, |floor.nodes|, now))]
              else
                storage.entries == old(storage.entries)
    {
      var ps := ReadProjects(storage.entries);
      var index := FindProjectIndex(ps, projectId);
      if index.Some? {
        storage.SetItem(ProjectsKey, ProjectList(RefreshMetadata(ps, projectId, |floor.nodes|, now)));
      }
    }
  }
}
