/**
 The window object of the graphical client (app-gui.py): its logged-in user,
 the rows of its package table, and the buttons' actions.
 */
module GuiApp {
  import opened Wrappers
  import opened Text
  import opened Backend
  import opened GuiRules
  import GuiManagers

  /** The message box an action of the window ends with. */
  datatype Notice = LogInFirst | NothingSelected | Succeeded | Failed

  /**
   The window's state: the logged-in user, if any, and the rows of the
   package table in display order.
   */
  class App {
    var user: Option<User>
    var rows: seq<Row>

    /** The table is empty whenever nobody is logged in. */
    ghost predicate Valid()
      reads this
    {
      user == None ==> rows == []
    }

    constructor ()
      ensures Valid() && user == None && rows == []
    {
      user := None;
      rows := [];
    }

    /**
     `populate_package_tree`: the table is cleared and refilled with one
     unselected row per listed package, stopping at the first line that does
     not hold exactly one `==`; `complete` says whether every line was shown.
     */
    method PopulatePackageTree(run: PipRun) returns (complete: bool)
      modifies this
      ensures user == old(user)
      ensures rows == Rows(LocalPipList(run))
      ensures complete <==> AllParse(LocalPipList(run))
    {
      rows := [];
      complete := InsertRows(LocalPipList(run));
    }

    /**
     The insertion loop of `populate_package_tree`: each line unpacked into
     a row appended to the table, up to the first line that does not unpack.
     */
    method InsertRows(packages: seq<string>) returns (complete: bool)
      requires rows == []
      modifies this
      ensures user == old(user)
      ensures rows == Rows(packages)
      ensures complete <==> AllParse(packages)
    {
      var i := 0;
      assert packages[i..] == packages;
      while i < |packages|
        invariant 0 <= i <= |packages|
        invariant user == old(user)
        invariant |rows| == i
        invariant rows + Rows(packages[i..]) == Rows(packages)
      {
        InsertStep(packages, i, rows);
        var row := ParseRow(packages[i]);
        if row.None? {
          return false;
        }
        rows := rows + [row.value];
        i := i + 1;
      }
      InsertDone(packages, rows);
      return true;
    }

    /** `App.login`: on success the user is set and the table repopulated; on failure nothing changes. */
    method Login(store: Store, username: string, password: string, run: PipRun) returns (ok: bool)
      requires Valid()
      modifies this
      ensures Valid()
      ensures ok <==> GuiRules.Login(Lookup(store.users, username), username, password).Some?
      ensures ok ==> user == GuiRules.Login(Lookup(store.users, username), username, password) && rows == Rows(LocalPipList(run))
      ensures !ok ==> user == old(user) && rows == old(rows)
    {
      var u := GuiRules.Login(store.HGet(username), username, password);
      if u.Some? {
        user := u;
        var _ := PopulatePackageTree(run);
        return true;
      }
      return false;
    }

    /** `App.signup`: a new account logs its owner in and repopulates the table; a taken name changes nothing. */
    method Signup(store: Store, username: string, password: string, run: PipRun) returns (ok: bool)
      requires Valid()
      modifies this, store
      ensures Valid()
      ensures ok <==> username !in old(store.users)
      ensures store.users == if ok then old(store.users)[username := password] else old(store.users)
      ensures store.kv == old(store.kv)
      ensures ok ==> user == Some(User(username, password)) && rows == Rows(LocalPipList(run))
      ensures !ok ==> user == old(user) && rows == old(rows)
    {
      var u := GuiManagers.Signup(store, username, password);
      if u.Some? {
        user := u;
        var _ := PopulatePackageTree(run);
        return true;
      }
      return false;
    }

    /** `App.logout`: nobody is logged in and the table is emptied. */
    method Logout()
      modifies this
      ensures Valid()
      ensures user == None && rows == []
    {
      user := None;
      rows := [];
    }

    /**
     `toggle_checkbox`: a click on the Select column of an existing row flips
     that row's flag; a click on the heading, on another column or below the
     last row changes nothing.
     */
    method ToggleCheckbox(region: string, row: int, column: string)
      requires Valid()
      modifies this
      ensures Valid() && user == old(user)
      ensures rows ==
                if region != "heading" && column == "#1" && 0 <= row < |old(rows)|
                then old(rows)[row := old(rows)[row].(select := Flip(old(rows)[row].select))]
                else old(rows)
    {
      if region == "heading" {
        return;
      }
      if column == "#1" && 0 <= row < |rows| {
        var currentValue := rows[row].select;
        var newValue := if currentValue == "False" then "True" else "False";
        rows := rows[row := rows[row].(select := newValue)];
      }
    }

    /** `App.upload_all_pip`: refused while logged out; otherwise the whole pip listing is uploaded. */
    method UploadAllPip(store: Store, run: PipRun) returns (notice: Notice)
      requires Valid()
      modifies store
      ensures notice == if user == None then LogInFirst else if Listed(run) then Succeeded else Failed
      ensures store.kv ==
                if user != None && Listed(run) then old(store.kv)[user.value.username := Strip(run.stdout)]
                else old(store.kv)
      ensures store.users == old(store.users)
    {
      if user == None {
        return LogInFirst;
      }
      var success := GuiManagers.UploadAllPip(store, user.value, run);
      notice := if success then Succeeded else Failed;
    }

    /**
     `App.upload_pip`: the rows flagged `'True'`, rebuilt as `name==version`
     in table order, are uploaded; with nothing selected nothing is written.
     It has no login check, but nothing can be selected while logged out.
     */
    method UploadPip(store: Store) returns (notice: Notice)
      requires Valid()
      modifies store
      ensures notice == if Selected(rows) == [] then NothingSelected else Succeeded
      ensures store.kv ==
                if Selected(rows) == [] then old(store.kv)
                else old(store.kv)[user.value.username := Join("\n", Entries(Selected(rows)))]
      ensures store.users == old(store.users)
      ensures user == None ==> store.kv == old(store.kv)
    {
      var selectedItems := Selected(rows);
      if selectedItems == [] {
        return NothingSelected;
      }
      var selectedPackages := Entries(selectedItems);
      var success := GuiManagers.UploadPip(store, user.value, selectedPackages);
      notice := if success then Succeeded else Failed;
    }

    /** `App.download_all_pip`: refused while logged out; otherwise the stored manifest is replayed. */
    method DownloadAllPip(store: Store, host: Host) returns (notice: Notice)
      requires Valid()
      modifies host
      ensures user == None ==> notice == LogInFirst
      ensures user == None ==> host.events == old(host.events)
      ensures user != None ==>
                var name := user.value.username;
                var found := name in store.kv && store.kv[name] != "";
                && notice == (if found then Succeeded else Failed)
                && host.events == old(host.events) + (if found then Trace(Names(Split(store.kv[name], "\n"))) else [])
    {
      if user == None {
        return LogInFirst;
      }
      var success := GuiManagers.DownloadAllPackages(store, host, user.value);
      notice := if success then Succeeded else Failed;
    }

    /**
     `App.download_selected_pip`: refused while logged out; otherwise the
     rows flagged `'True'` are installed in table order.
     */
    method DownloadSelectedPip(host: Host) returns (notice: Notice)
      requires Valid()
      modifies host
      ensures user == None ==> notice == LogInFirst
      ensures user == None ==> host.events == old(host.events)
      ensures user != None ==>
                && notice == (if Selected(rows) == [] then NothingSelected else Succeeded)
                && host.events == old(host.events) + Trace(Names(Entries(Selected(rows))))
    {
      if user == None {
        return LogInFirst;
      }
      var selectedItems := Selected(rows);
      if selectedItems == [] {
        return NothingSelected;
      }
      var selectedPackages := Entries(selectedItems);
      var success := GuiManagers.DownloadPip(host, user.value, selectedPackages);
      notice := if success then Succeeded else Failed;
    }
  }
}
