/** The guards and desk settings of a Role document: the five standard
    roles can be neither renamed nor disabled, and a role without desk
    access (Guest always) has every desk feature switched off. A role's
    check fields are booleans; the desk features are kept by field name. */
module Role {
  import opened Wrappers

  /** The eight desk features a role can switch on. */
  const DeskProperties: seq<string> :=
    ["search_bar", "notifications", "list_sidebar", "bulk_actions",
     "view_switcher", "form_sidebar", "timeline", "dashboard"]

  const StandardRoles: seq<string> :=
    ["Administrator", "System Manager", "Script Manager", "All", "Guest"]

  datatype RoleError =
    | StandardRoleRename      // a standard role cannot be renamed
    | StandardRoleDisable     // a standard role cannot be disabled

  /** `before_rename`: only a role outside the standard five may be
      renamed. */
  function BeforeRename(oldName: string, newName: string): (r: Outcome<RoleError>)
    ensures r.Fail? <==> oldName in StandardRoles
    ensures r.Fail? ==> r.error == StandardRoleRename
  {
    if oldName in StandardRoles then Fail(StandardRoleRename) else Pass
  }

  /** The guard of `disable_role`: a standard role cannot be disabled
      (otherwise the role's assignments are removed, which is not part of
      this model). */
  function DisableRole(name: string): (r: Outcome<RoleError>)
    ensures r.Fail? <==> name in StandardRoles
    ensures r.Fail? ==> r.error == StandardRoleDisable
  {
    if name in StandardRoles then Fail(StandardRoleDisable) else Pass
  }

  /** The desk features after every one of them is switched off; other
      fields keep their values. */
  function DeskCleared(fields: map<string, bool>): (r: map<string, bool>)
    ensures forall key :: key in DeskProperties ==> key in r && !r[key]
    ensures forall key :: key !in DeskProperties ==> (key in r <==> key in fields) && (key in r ==> r[key] == fields[key])
  {
    map key | key in fields.Keys + (set p | p in DeskProperties) :: if key in DeskProperties then false else fields[key]
  }

  /** Switching the features off one field at a time, as `set_desk_properties`
      does, from the `i`-th name on. */
  function ClearFrom(fields: map<string, bool>, i: nat): map<string, bool>
    requires i <= |DeskProperties|
    decreases |DeskProperties| - i
  {
    if i == |DeskProperties| then fields else ClearFrom(fields[DeskProperties[i] := false], i + 1)
  }

  /** Clearing the fields one by one ends in the same place as clearing
      them all at once. */
  lemma {:induction false} ClearFromIsDeskCleared(fields: map<string, bool>, i: nat)
    requires i <= |DeskProperties|
    requires forall j :: 0 <= j < i ==> DeskProperties[j] in fields && !fields[DeskProperties[j]]
    ensures ClearFrom(fields, i) == DeskCleared(fields)
    decreases |DeskProperties| - i
  {
    if i < |DeskProperties| {
      var next := fields[DeskProperties[i] := false];
      ClearFromIsDeskCleared(next, i + 1);
      assert DeskCleared(next) == DeskCleared(fields);
    } else {
      forall key | key in DeskProperties
        ensures key in fields && !fields[key]
      {
        var j :| 0 <= j < |DeskProperties| && DeskProperties[j] == key;
      }
      assert DeskCleared(fields) == fields;
    }
  }

  /** A Role document's own fields. */
  class RoleDoc {
    var name: string
    var disabled: bool
    var deskAccess: bool
    var fields: map<string, bool>

    constructor(name: string, disabled: bool, deskAccess: bool, fields: map<string, bool>)
      ensures this.name == name && this.disabled == disabled && this.deskAccess == deskAccess && this.fields == fields
    {
      this.name := name;
      this.disabled := disabled;
      this.deskAccess := deskAccess;
      this.fields := fields;
    }

    /** `set_desk_properties`: Guest loses desk access, and a role without
        desk access has every desk feature switched off. */
    method SetDeskProperties()
      modifies this`deskAccess, this`fields
      ensures deskAccess == (old(deskAccess) && name != "Guest")
      ensures fields == if deskAccess then old(fields) else DeskCleared(old(fields))
    {
      if name == "Guest" {
        deskAccess := false;
      }
      if !deskAccess {
        var i := 0;
        while i < |DeskProperties|
          invariant 0 <= i <= |DeskProperties|
          invariant deskAccess == (old(deskAccess) && name != "Guest") && !deskAccess
          invariant ClearFrom(fields, i) == ClearFrom(old(fields), 0)
          invariant forall j :: 0 <= j < i ==> DeskProperties[j] in fields && !fields[DeskProperties[j]]
        {
          fields := fields[DeskProperties[i] := false];
          i := i + 1;
        }
        ClearFromIsDeskCleared(old(fields), 0);
      }
    }

    /** `validate`: a disabled role goes through the disabling guard and
        keeps its desk settings; an enabled role has them set. */
    method Validate() returns (r: Outcome<RoleError>)
      modifies this`deskAccess, this`fields
      ensures disabled ==> r == DisableRole(name) && deskAccess == old(deskAccess) && fields == old(fields)
      ensures !disabled ==> r.Pass? && deskAccess == (old(deskAccess) && name != "Guest")
      ensures !disabled && !deskAccess ==> fields == DeskCleared(old(fields))
      ensures !disabled && deskAccess ==> fields == old(fields)
    {
      if disabled {
        r := DisableRole(name);
      } else {
        SetDeskProperties();
        r := Pass;
      }
    }
  }
}
