/**
 The text-menu client (app.py): one attempt of its login and signup prompts,
 uploading the raw `pip3 list` text, replaying a stored listing token by
 token, and the menu loop that carries the logged-in username.
 */
module Cli {
  import opened Wrappers
  import opened Text
  import opened Backend
  import GuiRules

  /**
   One attempt of `login()`, given what `HGET users username` returned: the
   username comes back when the stored password equals the one entered; an
   absent account reads as Python's `None`, which equals no entered password.
   */
  function Login(stored: Option<string>, username: string, password: string): Option<string>
  {
    if stored == Some(password) then Some(username) else None
  }

  /**
   The two clients' login checks agree except on an account whose password
   is empty: the menu lets it in, the window does not.
   */
  lemma LoginPoliciesDiffer(stored: Option<string>, username: string, password: string)
    ensures GuiRules.Login(stored, username, password).Some? <==>
              Login(stored, username, password).Some? && password != ""
    ensures GuiRules.Login(stored, username, password).Some? ==>
              GuiRules.Login(stored, username, password).value.username == Login(stored, username, password).value
  {
  }

  /**
   One attempt of `signup()`: a taken username leaves the accounts as they
   were; a new one is stored with its password verbatim. Nobody is logged in by it.
   */
  method Signup(store: Store, username: string, password: string) returns (created: bool)
    modifies store
    ensures created <==> username !in old(store.users)
    ensures store.users == if created then old(store.users)[username := password] else old(store.users)
    ensures store.kv == old(store.kv)
  {
    if !store.HExists(username) {
      store.HSet(username, password);
      return true;
    }
    return false;
  }

  /**
   `upload_pip(username)`: `listing` is what `get_local_pip_list()` returned,
   the decoded `pip3 list` output or None when the command failed. The text
   is stored verbatim under the username; on None nothing is written.
   */
  method UploadPip(store: Store, username: string, listing: Option<string>)
    modifies store
    ensures store.kv == if listing.Some? then old(store.kv)[username := listing.value] else old(store.kv)
    ensures store.users == old(store.users)
  {
    var pipList := listing;
    if pipList.Some? {
      store.Set(username, pipList.value);
    }
  }

  /**
   The name installed for one line of a stored listing: none for an empty
   line or a line of whitespace only, otherwise its first
   whitespace-separated token.
   */
  function PackageName(line: string): Option<string>
  {
    if line == "" then None
    else
      var packageInfo := Words(Strip(line));
      if |packageInfo| >= 1 then Some(packageInfo[0]) else None
  }

  /** The names installed for the lines of a stored listing, in order, skipping the lines without a token. */
  function Names(lines: seq<string>): (r: seq<string>)
    ensures |r| <= |lines|
  {
    if lines == [] then []
    else
      var first := PackageName(lines[0]);
      (if first.Some? then [first.value] else []) + Names(lines[1..])
  }

  /** Every name a replay installs is a non-empty token without whitespace. */
  lemma {:induction false} NamesShape(lines: seq<string>)
    ensures forall i :: 0 <= i < |Names(lines)| ==> Names(lines)[i] != "" && NoSpace(Names(lines)[i])
  {
    if lines != [] {
      NamesShape(lines[1..]);
      if lines[0] != "" {
        WordsShape(Strip(lines[0]));
      }
    }
  }

  /** Replaying two runs of lines installs the names of the first and then those of the second. */
  lemma {:induction false} NamesAppend(a: seq<string>, b: seq<string>)
    ensures Names(a + b) == Names(a) + Names(b)
  {
    if a == [] {
      assert a + b == b;
    } else {
      assert (a + b)[1..] == a[1..] + b;
      NamesAppend(a[1..], b);
      assert Names(a + b) == (if PackageName(a[0]).Some? then [PackageName(a[0]).value] else []) + Names(a[1..] + b);
    }
  }

  /** A line that starts with a token followed by whitespace or nothing installs that token. */
  lemma PackageNameOf(name: string, rest: string)
    requires name != "" && NoSpace(name)
    requires rest == "" || IsSpace(rest[0])
    ensures PackageName(name + rest) == Some(name)
  {
    var line := name + rest;
    assert line[0] == name[0];
    assert TrimStart(line) == line;
    var t := TrimEnd(line);
    TrimEndShape(line);
    assert line[|name| - 1] == name[|name| - 1];
    assert |t| >= |name|;
    var tail := rest[..|t| - |name|];
    assert t == name + tail;
    assert tail == "" || tail[0] == rest[0];
    FirstWord(name, tail);
    assert Strip(line) == t;
  }

  /** A line of whitespace only installs nothing. */
  lemma BlankLineSkipped(line: string)
    requires forall i :: 0 <= i < |line| ==> IsSpace(line[i])
    ensures PackageName(line) == None
  {
    StripEmpty(line);
    WordsNone(Strip(line));
  }

  /**
   A listing whose every line is a token followed by whitespace or nothing
   installs exactly those tokens, one per line, in order.
   */
  lemma {:induction false} NamesOfTokens(lines: seq<string>, tokens: seq<string>, rests: seq<string>)
    requires |lines| == |tokens| == |rests|
    requires forall i :: 0 <= i < |lines| ==>
               && tokens[i] != "" && NoSpace(tokens[i])
               && (rests[i] == "" || IsSpace(rests[i][0]))
               && lines[i] == tokens[i] + rests[i]
    ensures Names(lines) == tokens
  {
    if lines != [] {
      PackageNameOf(tokens[0], rests[0]);
      NamesOfTokens(lines[1..], tokens[1..], rests[1..]);
    }
  }

  /**
   `pip3 list` prints a table whose first line is the heading `Package`
   followed by the column names and whose second line is a rule of dashes;
   stored verbatim and replayed, such a table has `Package` and the rule
   installed as if they were packages, before the packages listed below.
   */
  lemma TableHeadingReplayed(heading: string, rule: string, ruleRest: string, rest: seq<string>)
    requires heading == "" || IsSpace(heading[0])
    requires rule != "" && NoSpace(rule)
    requires ruleRest == "" || IsSpace(ruleRest[0])
    ensures Names(["Package" + heading, rule + ruleRest] + rest) == ["Package", rule] + Names(rest)
  {
    var top := ["Package" + heading, rule + ruleRest];
    NamesOfTokens(top, ["Package", rule], [heading, ruleRest]);
    NamesAppend(top, rest);
  }

  /** What a replay of the listing stored under `username` installs: nothing when it is absent or empty. */
  function StoredNames(kv: map<string, string>, username: string): seq<string>
  {
    if username in kv && kv[username] != "" then Names(Split(kv[username], "\n")) else []
  }

  /** One more line replayed: the events of its name, if any, join those of the lines before it. */
  lemma ReplayStep(lines: seq<string>, i: nat)
    requires i < |lines|
    ensures Names(lines[..i + 1]) == Names(lines[..i]) + Names([lines[i]])
    ensures Trace(Names(lines[..i + 1])) == Trace(Names(lines[..i])) + Trace(Names([lines[i]]))
  {
    assert lines[..i + 1] == lines[..i] + [lines[i]];
    NamesAppend(lines[..i], [lines[i]]);
    TraceAppend(Names(lines[..i]), Names([lines[i]]));
  }

  /**
   One iteration of the replay loop: a line with a token installs its first
   token between the two printed messages; any other line does nothing.
   */
  method ReplayLine(host: Host, line: string)
    modifies host
    ensures host.events == old(host.events) + Trace(Names([line]))
  {
    assert [line][1..] == [];
    if line != "" {
      var packageInfo := Words(Strip(line));
      if |packageInfo| >= 1 {
        var packageName := packageInfo[0];
        assert Names([line]) == [packageName];
        assert [packageName][1..] == [];
        host.Report(Starting(packageName));
        host.Install(packageName);
        host.Report(Finished(packageName));
      }
    }
  }

  /** The replay loop of `download_all_packages` over the lines of a listing, in order. */
  method ReplayLines(host: Host, lines: seq<string>)
    modifies host
    ensures host.events == old(host.events) + Trace(Names(lines))
  {
    var i := 0;
    while i < |lines|
      invariant 0 <= i <= |lines|
      invariant host.events == old(host.events) + Trace(Names(lines[..i]))
    {
      ReplayLine(host, lines[i]);
      ReplayStep(lines, i);
      i := i + 1;
    }
    assert lines[..i] == lines;
  }

  /**
   `download_all_packages(username)`: an absent or empty listing installs
   nothing; otherwise each line is taken in order and every line with a
   token installs its first token between the two printed messages.
   */
  method DownloadAllPackages(store: Store, host: Host, username: string)
    modifies host
    ensures host.events == old(host.events) + Trace(StoredNames(store.kv, username))
  {
    var pipList := store.Get(username);
    if pipList.Some? && pipList.value != "" {
      ReplayLines(host, Split(pipList.value, "\n"));
    }
  }

  /**
   One pass of the menu loop: the choice typed, and what the prompts behind
   it read (the credentials for '1' and '2', and for '3' the local listing
   or None when `pip3 list` failed).
   */
  datatype Input = Input(choice: string, username: string, password: string, listing: Option<string>)

  /**
   One iteration of `main`: '1' logs in with one attempt, '2' creates an
   account without logging in, '3' and '4' upload and replay only while
   logged in, '5' signs out or, from the anonymous state, quits; any other
   choice changes nothing.
   */
  method MenuStep(store: Store, host: Host, session: Option<string>, input: Input)
    returns (next: Option<string>, quit: bool)
    modifies store, host
    ensures quit <==> input.choice == "5" && session == None
    ensures next ==
              if input.choice == "1" && Login(Lookup(old(store.users), input.username), input.username, input.password).Some?
              then Login(Lookup(old(store.users), input.username), input.username, input.password)
              else if input.choice == "5" then None
              else session
    ensures store.users ==
              if input.choice == "2" && input.username !in old(store.users)
              then old(store.users)[input.username := input.password]
              else old(store.users)
    ensures store.kv ==
              if input.choice == "3" && session != None && input.listing != None
              then old(store.kv)[session.value := input.listing.value]
              else old(store.kv)
    ensures input.choice == "4" && session != None ==>
              host.events == old(host.events) + Trace(StoredNames(store.kv, session.value))
    ensures !(input.choice == "4" && session != None) ==>
              host.events == old(host.events)
  {
    next, quit := session, false;
    var choice := input.choice;
    if choice == "1" {
      var loggedIn := Login(store.HGet(input.username), input.username, input.password);
      if loggedIn.Some? {
        next := loggedIn;
      }
    } else if choice == "2" {
      var _ := Signup(store, input.username, input.password);
    } else if choice == "3" {
      if session != None {
        UploadPip(store, session.value, input.listing);
      }
    } else if choice == "4" {
      if session != None {
        DownloadAllPackages(store, host, session.value);
      }
    } else if choice == "5" {
      if session != None {
        next := None;
      } else {
        quit := true;
      }
    }
  }

  /** Every account present before is still present with the same password. */
  ghost predicate Keeps(before: map<string, string>, after: map<string, string>)
  {
    forall u :: u in before ==> u in after && after[u] == before[u]
  }

  /**
   `main`: the menu loop over the inputs typed, from the anonymous state.
   The username it holds always names an existing account, accounts once
   created are never altered, and the loop ends early only on '5' typed
   while logged out.
   */
  method RunMenu(store: Store, host: Host, inputs: seq<Input>)
    returns (session: Option<string>, steps: nat, quit: bool)
    modifies store, host
    ensures steps <= |inputs|
    ensures quit ==> 0 < steps && inputs[steps - 1].choice == "5" && session == None
    ensures !quit ==> steps == |inputs|
    ensures session != None ==> session.value in store.users
    ensures Keeps(old(store.users), store.users)
  {
    session, steps, quit := None, 0, false;
    while steps < |inputs|
      invariant steps <= |inputs|
      invariant session != None ==> session.value in store.users
      invariant Keeps(old(store.users), store.users)
    {
      var next, stop := MenuStep(store, host, session, inputs[steps]);
      steps := steps + 1;
      if stop {
        quit := true;
        return;
      }
      session := next;
    }
  }
}
