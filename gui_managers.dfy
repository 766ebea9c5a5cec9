/**
 The store- and machine-changing operations of the graphical client
 (app-gui.py): `UserManager.signup` and the static methods of `PackageManager`.
 */
module GuiManagers {
  import opened Wrappers
  import opened Text
  import opened Backend
  import opened GuiRules

  /**
   `UserManager.signup`: a taken username is refused and the accounts stay
   as they were; a new one is stored with its password verbatim.
   */
  method Signup(store: Store, username: string, password: string) returns (r: Option<User>)
    modifies store
    ensures r.Some? <==> username !in old(store.users)
    ensures r.Some? ==> r.value == User(username, password)
    ensures store.users == if r.Some? then old(store.users)[username := password] else old(store.users)
    ensures store.kv == old(store.kv)
  {
    if !store.HExists(username) {
      store.HSet(username, password);
      return Some(User(username, password));
    }
    return None;
  }

  /**
   `PackageManager.upload_pip`: an empty selection is refused without a
   write; otherwise the entries joined by newlines replace whatever the
   user's key held, and no other key changes.
   */
  method UploadPip(store: Store, user: User, packages: seq<string>) returns (ok: bool)
    modifies store
    ensures ok <==> packages != []
    ensures store.kv == if ok then old(store.kv)[user.username := Join("\n", packages)] else old(store.kv)
    ensures store.users == old(store.users)
  {
    if packages == [] {
      return false;
    }
    var pipList := Join("\n", packages);
    store.Set(user.username, pipList);
    return true;
  }

  /**
   `PackageManager.upload_all_pip`: when pip lists the installed packages,
   the user's key receives pip's stripped output; when pip fails nothing is written.
   */
  method UploadAllPip(store: Store, user: User, run: PipRun) returns (ok: bool)
    modifies store
    ensures ok <==> Listed(run)
    ensures store.kv == if ok then old(store.kv)[user.username := Strip(run.stdout)] else old(store.kv)
    ensures store.users == old(store.users)
  {
    var pipList := LocalPipList(run);
    LocalPipListShape(run);
    ok := UploadPip(store, user, pipList);
  }

  /** One more entry installed: its announcement, its install and its completion message join the events. */
  lemma InstallStep(packages: seq<string>, i: nat)
    requires i < |packages|
    ensures Names(packages[..i + 1]) == Names(packages[..i]) + [PackageName(packages[i])]
    ensures Trace(Names(packages[..i + 1])) ==
              Trace(Names(packages[..i])) +
              [Said(Starting(PackageName(packages[i]))), Ran(PackageName(packages[i])), Said(Finished(PackageName(packages[i])))]
  {
    var name := PackageName(packages[i]);
    assert packages[..i + 1] == packages[..i] + [packages[i]];
    NamesAppend(packages[..i], [packages[i]]);
    assert Names([packages[i]]) == [name] by {
      assert [packages[i]][1..] == [];
    }
    TraceAppend(Names(packages[..i]), [name]);
    assert Trace([name]) == [Said(Starting(name)), Ran(name), Said(Finished(name))] by {
      assert [name][1..] == [];
    }
  }

  /**
   The loop shared by `download_pip` and `download_all_packages`: for each
   entry in order, one install of its name between the two progress messages.
   */
  method InstallEach(host: Host, packages: seq<string>)
    modifies host
    ensures host.events == old(host.events) + Trace(Names(packages))
  {
    var i := 0;
    while i < |packages|
      invariant 0 <= i <= |packages|
      invariant host.events == old(host.events) + Trace(Names(packages[..i]))
    {
      var packageInfo := Split(Strip(packages[i]), "==");
      if |packageInfo| >= 1 {
        var packageName := packageInfo[0];
        host.Report(Starting(packageName));
        host.Install(packageName);
        host.Report(Finished(packageName));
      }
      InstallStep(packages, i);
      i := i + 1;
    }
    assert packages[..i] == packages;
  }

  /**
   `PackageManager.download_pip`: an empty selection installs nothing;
   otherwise every entry is installed in order and the result is success,
   whatever the installs did.
   */
  method DownloadPip(host: Host, user: User, packages: seq<string>) returns (ok: bool)
    modifies host
    ensures ok <==> packages != []
    ensures host.events == old(host.events) + Trace(Names(packages))
  {
    if packages == [] {
      return false;
    }
    InstallEach(host, packages);
    return true;
  }

  /**
   `PackageManager.download_all_packages`: an absent or empty manifest
   installs nothing and fails; otherwise each newline-separated line is
   installed in order and the result is success.
   */
  method DownloadAllPackages(store: Store, host: Host, user: User) returns (ok: bool)
    modifies host
    ensures ok <==> user.username in store.kv && store.kv[user.username] != ""
    ensures host.events == old(host.events) + if ok then Trace(Names(Split(store.kv[user.username], "\n"))) else []
  {
    var pipList := store.Get(user.username);
    if pipList.Some? && pipList.value != "" {
      var packages := Split(pipList.value, "\n");
      InstallEach(host, packages);
      return true;
    }
    return false;
  }

  /**
   Record and replay: uploading entries that hold no newline and then
   downloading everything installs the name of each entry, in the order uploaded.
   */
  method ReplayAfterUpload(store: Store, host: Host, user: User, packages: seq<string>)
    returns (uploaded: bool, replayed: bool)
    requires packages != [] && packages != [""]
    requires forall i :: 0 <= i < |packages| ==> '\n' !in packages[i]
    modifies store, host
    ensures uploaded && replayed
    ensures store.kv == old(store.kv)[user.username := Join("\n", packages)]
    ensures host.events == old(host.events) + Trace(Names(packages))
  {
    uploaded := UploadPip(store, user, packages);
    JoinEmpty("\n", packages);
    SplitJoin(packages, '\n');
    replayed := DownloadAllPackages(store, host, user);
  }
}
