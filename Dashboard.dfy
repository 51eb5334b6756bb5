/**
 * The project dashboard: the project index held in memory and in the store, the
 * "new project" form, and creating and deleting projects.
 */
module Dashboard {
  import opened Wrappers
  import opened Persist

  /**
   * The characters `String.prototype.trim` removes: the WhiteSpace and LineTerminator
   * code points of ECMAScript (section 12.2 and 12.3 of ECMA-262), space separators included.
   */
  predicate IsJsWhiteSpace(c: char) {
    var u := c as int;
    u == 0x9 || u == 0xB || u == 0xC || u == 0x20 || u == 0xA0 || u == 0xFEFF ||
    u == 0x1680 || (0x2000 <= u <= 0x200A) || u == 0x202F || u == 0x205F || u == 0x3000 ||
    u == 0xA || u == 0xD || u == 0x2028 || u == 0x2029
  }

  predicate AllWhiteSpace(s: string) {
    forall i :: 0 <= i < |s| ==> IsJsWhiteSpace(s[i])
  }

  /** `s` without its leading white space. */
  function TrimStart(s: string): (r: string)
    ensures |r| <= |s| && r == s[|s| - |r|..]
    ensures forall i :: 0 <= i < |s| - |r| ==> IsJsWhiteSpace(s[i])
    ensures |r| > 0 ==> !IsJsWhiteSpace(r[0])
  {
    if |s| > 0 && IsJsWhiteSpace(s[0]) then
      var r := TrimStart(s[1..]);
      assert forall i :: 1 <= i < |s| ==> s[i] == s[1..][i - 1];
      r
    else
      s
  }

  /** `s` without its trailing white space. */
  function TrimEnd(s: string): (r: string)
    ensures |r| <= |s| && r == s[..|r|]
    ensures forall i :: |r| <= i < |s| ==> IsJsWhiteSpace(s[i])
    ensures |r| > 0 ==> !IsJsWhiteSpace(r[|r| - 1])
  {
    if |s| > 0 && IsJsWhiteSpace(s[|s| - 1]) then
      var r := TrimEnd(s[..|s| - 1]);
      assert forall i :: 0 <= i < |s| - 1 ==> s[i] == s[..|s| - 1][i];
      r
    else
      s
  }

  /**
   * `s.trim()`: a slice `s[i..j]` of the input such that everything before `i` and from
   * `j` on is white space, and that neither starts nor ends with white space.
   */
  function Trim(s: string): (r: string)
    ensures StripOf(s, r)
    ensures |r| > 0 ==> !IsJsWhiteSpace(r[0]) && !IsJsWhiteSpace(r[|r| - 1])
  {
    var t := TrimStart(s);
    var r := TrimEnd(t);
    TrimSlice(s, t, r);
    r
  }

  /** `r` is a slice of `s` and everything of `s` before and after it is white space. */
  ghost predicate StripOf(s: string, r: string) {
    exists i, j :: 0 <= i <= j <= |s| && r == s[i..j] &&
      (forall k :: 0 <= k < i ==> IsJsWhiteSpace(s[k])) &&
      (forall k :: j <= k < |s| ==> IsJsWhiteSpace(s[k]))
  }

  /** The two one-sided trims together cut white space off both ends of a slice. */
  lemma TrimSlice(s: string, t: string, r: string)
    requires |t| <= |s| && t == s[|s| - |t|..]
    requires forall k :: 0 <= k < |s| - |t| ==> IsJsWhiteSpace(s[k])
    requires |r| <= |t| && r == t[..|r|]
    requires forall k :: |r| <= k < |t| ==> IsJsWhiteSpace(t[k])
    requires |t| > 0 ==> !IsJsWhiteSpace(t[0])
    requires |r| > 0 ==> !IsJsWhiteSpace(r[|r| - 1])
    ensures |r| > 0 ==> !IsJsWhiteSpace(r[0]) && !IsJsWhiteSpace(r[|r| - 1])
    ensures StripOf(s, r)
  {
    var i := |s| - |t|;
    var j := i + |r|;
    assert r == s[i..j];
    forall k | j <= k < |s| ensures IsJsWhiteSpace(s[k]) {
      assert s[k] == t[k - i];
    }
  }

  /** A name made of white space only loses all of it. */
  lemma {:induction false} TrimStartOfBlank(s: string)
    requires AllWhiteSpace(s)
    ensures TrimStart(s) == ""
  {
    if |s| > 0 {
      assert AllWhiteSpace(s[1..]) by {
        forall i | 0 <= i < |s[1..]| ensures IsJsWhiteSpace(s[1..][i]) {
          assert s[1..][i] == s[i + 1];
        }
      }
      TrimStartOfBlank(s[1..]);
    }
  }

  /** A name trims to the empty string exactly when every character of it is white space. */
  lemma TrimEmptyIffBlank(s: string)
    ensures Trim(s) == "" <==> AllWhiteSpace(s)
  {
    var t := TrimStart(s);
    if Trim(s) == "" {
      assert |t| == 0;
    }
    if AllWhiteSpace(s) {
      TrimStartOfBlank(s);
    }
  }

  /** Trimming twice is trimming once. */
  lemma TrimIdempotent(s: string)
    ensures Trim(Trim(s)) == Trim(s)
  {
    var r := Trim(s);
    if |r| > 0 {
      assert TrimStart(r) == r;
      assert TrimEnd(r) == r;
    }
  }

  /** A name of a space, a tab and a newline counts as blank. */
  lemma BlankNameExample()
    ensures Trim(" \t\n") == ""
  {
    var blank := " \t\n";
    assert IsJsWhiteSpace(blank[0]) && IsJsWhiteSpace(blank[1]) && IsJsWhiteSpace(blank[2]);
    TrimEmptyIffBlank(blank);
  }

  /** Surrounding spaces are dropped, inner characters kept. */
  lemma TrimNameExample()
    ensures Trim(" Lobby ") == "Lobby"
  {
    var s := " Lobby ";
    assert IsJsWhiteSpace(s[0]);
    assert s[1..] == "Lobby ";
    var u := "Lobby ";
    assert !IsJsWhiteSpace(u[0]);
    assert TrimStart(s) == u;
    assert IsJsWhiteSpace(u[5]);
    assert u[..5] == "Lobby";
    var v := "Lobby";
    assert !IsJsWhiteSpace(v[4]);
    assert TrimEnd(u) == v;
  }

  class Dashboard {
    const storage: LocalStorage
    var projects: seq<Project>
    var isCreating: bool
    var newProjectName: string

    /** Mounting the dashboard: the index is read from the store, the form is closed. */
    constructor(storage: LocalStorage)
      ensures this.storage == storage
      ensures projects == ReadProjects(storage.entries)
      ensures !isCreating && newProjectName == ""
    {
      this.storage := storage;
      projects := ReadProjects(storage.entries);
      isCreating := false;
      newProjectName := "";
    }

    /** The "Create New Project" card opens the form. */
    method OpenCreateForm()
      modifies this
      ensures isCreating
      ensures projects == old(projects) && newProjectName == old(newProjectName)
    {
      isCreating := true;
    }

    /** Cancel and Escape close the form and keep what was typed. */
    method CancelCreate()
      modifies this
      ensures !isCreating
      ensures projects == old(projects) && newProjectName == old(newProjectName)
    {
      isCreating := false;
    }

    /** Typing in the name field. */
    method EditName(value: string)
      modifies this
      ensures newProjectName == value
      ensures projects == old(projects) && isCreating == old(isCreating)
    {
      newProjectName := value;
    }

    /**
     * `handleCreateProject`: a blank name does nothing; otherwise one record with id
     * `newId` and the two clock readings is appended, the index is written to the store,
     * the form is closed and emptied, and the new id is returned to be opened.
     */
    method HandleCreateProject(newId: string, createdAt: string, updatedAt: string)
      returns (toOpen: Option<string>)
      requires !HasProject(projects, newId)
      modifies this, storage
      ensures Trim(old(newProjectName)) == "" ==>
                && toOpen == None
                && projects == old(projects) && isCreating == old(isCreating)
                && newProjectName == old(newProjectName)
                && storage.entries == old(storage.entries)
      ensures Trim(old(newProjectName)) != "" ==>
                && toOpen == Some(newId)
                && |projects| == |old(projects)| + 1 && projects[..|old(projects)|] == old(projects)
                && projects[|old(projects)|].id == newId
                && projects[|old(projects)|].name == old(newProjectName)
                && projects[|old(projects)|].createdAt == createdAt
                && projects[|old(projects)|].updatedAt == updatedAt
                && projects[|old(projects)|].nodeCount == 0
                && storage.entries == old(storage.entries)[ProjectsKey := ProjectList(projects)]
                && ReadProjects(storage.entries) == projects
                && !isCreating && newProjectName == ""
    {
      if Trim(newProjectName) == "" {
        return None;
      }
      var created := Project(newId, newProjectName, createdAt, updatedAt, 0);
      var updated := projects + [created];
      storage.SetItem(ProjectsKey, ProjectList(updated));
      ReadProjectsAfterWrite(old(storage.entries), updated);
      projects := updated;
      isCreating := false;
      newProjectName := "";
      toOpen := Some(newId);
    }

    /**
     * `handleDeleteProject`, once confirmed: the records with the id are dropped, the
     * index is written back, and the project's floor plan and transform keys are removed.
     */
    method HandleDeleteProject(id: string)
      modifies this, storage
      ensures projects == RemoveProject(old(projects), id)
      ensures storage.entries == AfterDelete(old(storage.entries), projects, id)
      ensures ReadProjects(storage.entries) == projects
      ensures isCreating == old(isCreating) && newProjectName == old(newProjectName)
    {
      var updated := RemoveProject(projects, id);
      storage.SetItem(ProjectsKey, ProjectList(updated));
      projects := updated;
      storage.RemoveItem(DataKey(id));
      storage.RemoveItem(TransformKey(id));
      ReadProjectsAfterDelete(old(storage.entries), updated, id);
    }
  }
}
