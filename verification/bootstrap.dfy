/**
 * The post-migrate hook that sets up the three canonical groups and binds
 * each to its fixed set of blog permissions.
 */
module Bootstrap {
  import opened Basics
  import opened Store

  /** `Group.objects.get_or_create(name=name)`: a missing group is created with no permissions. */
  function GetOrCreateGroup(groups: map<string, set<string>>, name: string): (r: map<string, set<string>>)
    ensures r.Keys == groups.Keys + {name}
    ensures name in groups ==> r == groups
    ensures name !in groups ==> r[name] == {}
    ensures forall g :: g in groups ==> r[g] == groups[g]
  {
    if name in groups then groups else groups[name := {}]
  }

  /** `Permission.objects.get(codename=codename)`: raises DoesNotExist when there is no such row. */
  function GetPermission(permissions: set<string>, codename: string): (r: Result<string>)
    ensures r.Ok? <==> codename in permissions
    ensures r.Ok? ==> r.value == codename
  {
    if codename in permissions then Ok(codename) else Err("DoesNotExist")
  }

  /** The four permissions the framework creates for the Post model. */
  predicate BasePermissionsPresent(permissions: set<string>) {
    ViewPost in permissions && AddPost in permissions && ChangePost in permissions && DeletePost in permissions
  }

  const ReadersPermissions: set<string> := {ViewPost}
  const AuthorsPermissions: set<string> := {AddPost, ChangePost, DeletePost}
  const EditorsPermissions: set<string> := {CanPublish, AddPost, ChangePost, DeletePost}

  /** The part of the hook after the groups exist: look up the permissions, then set each group's. */
  function AssignPermissions(s: Store): (r: Result<Store>)
    ensures r.Ok? <==> BasePermissionsPresent(s.permissions)
  {
    var view :- GetPermission(s.permissions, ViewPost);
    var add :- GetPermission(s.permissions, AddPost);
    var change :- GetPermission(s.permissions, ChangePost);
    var delete :- GetPermission(s.permissions, DeletePost);
    // get_or_create of the custom permission; the editors' repeated lookups
    // of the three base permissions find the rows already found above
    var permissions := s.permissions + {CanPublish};
    var publish := CanPublish;
    Ok(s.(permissions := permissions,
          groups := s.groups[Readers := {view}]
                            [Authors := {add, change, delete}]
                            [Editors := {publish, add, change, delete}]))
  }

  /**
   * create_groups_permissions. Any exception is caught and printed, so a
   * failed lookup leaves the groups created before it in place and changes
   * nothing else.
   */
  function CreateGroupsPermissions(s: Store): (r: Store)
    // only the group and permission tables change
    ensures r == s.(groups := r.groups, permissions := r.permissions)
    // the three groups exist afterwards, whatever happened
    ensures Readers in r.groups && Authors in r.groups && Editors in r.groups
    // no other group is created, dropped or changed
    ensures forall g :: g != Readers && g != Authors && g != Editors ==>
              (g in r.groups <==> g in s.groups) && (g in s.groups ==> r.groups[g] == s.groups[g])
    // success: fixed permission sets, prior ones replaced; can_publish exists
    ensures BasePermissionsPresent(s.permissions) ==>
              && r.groups[Readers] == ReadersPermissions
              && r.groups[Authors] == AuthorsPermissions
              && r.groups[Editors] == EditorsPermissions
              && r.permissions == s.permissions + {CanPublish}
    // failure: partial effect, only the missing groups were added (empty)
    ensures !BasePermissionsPresent(s.permissions) ==>
              && r.permissions == s.permissions
              && (forall g :: g in s.groups ==> g in r.groups && r.groups[g] == s.groups[g])
              && (forall g :: g in r.groups && g !in s.groups ==> r.groups[g] == {})
  {
    var s1 := s.(groups := GetOrCreateGroup(GetOrCreateGroup(GetOrCreateGroup(s.groups, Readers), Authors), Editors));
    match AssignPermissions(s1)
    case Ok(s2) => s2
    case Err(_) => s1
  }

  /** Running the hook again, on success or on failure, changes nothing more. */
  lemma BootstrapIdempotent(s: Store)
    ensures CreateGroupsPermissions(CreateGroupsPermissions(s)) == CreateGroupsPermissions(s)
  {
    var r := CreateGroupsPermissions(s);
    var rr := CreateGroupsPermissions(r);
    assert BasePermissionsPresent(r.permissions) <==> BasePermissionsPresent(s.permissions);
    assert rr.groups.Keys == r.groups.Keys;
    assert rr.groups == r.groups;
  }
}
