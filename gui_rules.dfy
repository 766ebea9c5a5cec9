/**
 The pure rules of the graphical client (app-gui.py): the login check, the
 package list read from `pip list --format=freeze`, the package name taken
 from a manifest entry, and the package table reduced to its rows.
 */
module GuiRules {
  import opened Wrappers
  import opened Text
  import opened Backend

  /** The account the GUI holds once logged in. */
  datatype User = User(username: string, password: string)

  /**
   `UserManager.login`, given what `HGET users username` returned: a user
   comes back only when the stored password is present, non-empty (Python
   truthiness) and equal to the one given.
   */
  function Login(stored: Option<string>, username: string, password: string): Option<User>
  {
    if stored.Some? && stored.value != "" && stored.value == password then Some(User(username, password))
    else None
  }

  /** Whether one account logs in does not depend on any other account. */
  lemma LoginIndependent(users: map<string, string>, other: string, value: string, username: string, password: string)
    requires other != username
    ensures Login(Lookup(users[other := value], username), username, password) ==
              Login(Lookup(users, username), username, password)
  {
  }

  /**
   An account just created with password `p` logs in with `p` unless `p` is
   empty, and never with another password.
   */
  lemma LoginAfterSignup(users: map<string, string>, username: string, p: string, q: string)
    requires username !in users
    ensures Login(Lookup(users[username := p], username), username, p).Some? <==> p != ""
    ensures q != p ==> Login(Lookup(users[username := p], username), username, q) == None
  {
  }

  /** The outcome of `subprocess.run([sys.executable, '-m', 'pip', 'list', '--format=freeze'])`. */
  datatype PipRun = Exited(returncode: int, stdout: string) | Raised

  /**
   `PackageManager.get_local_pip_list_using_pip`: the stripped standard output
   cut at each newline when pip exits with 0, and no entries otherwise.
   */
  function LocalPipList(run: PipRun): seq<string>
  {
    match run
    case Exited(returncode, stdout) => if returncode == 0 then Split(Strip(stdout), "\n") else []
    case Raised => []
  }

  /** pip exited with 0. */
  predicate Listed(run: PipRun)
  {
    run.Exited? && run.returncode == 0
  }

  /**
   The list is empty exactly when pip failed; otherwise it is whitespace-free
   at its ends as a whole and joining it with newlines gives the stripped output back.
   */
  lemma LocalPipListShape(run: PipRun)
    ensures LocalPipList(run) == [] <==> !Listed(run)
    ensures Listed(run) ==> Join("\n", LocalPipList(run)) == Strip(run.stdout)
    ensures forall i :: 0 <= i < |LocalPipList(run)| ==> '\n' !in LocalPipList(run)[i]
  {
    if Listed(run) {
      JoinSplit(Strip(run.stdout), "\n");
      SplitPieces(Strip(run.stdout), '\n');
    }
  }

  /** The name installed for one entry: the stripped entry up to its first `==`. */
  function PackageName(entry: string): string
  {
    Split(Strip(entry), "==")[0]
  }

  /** The names installed for a list of entries, one per entry, in order. */
  function Names(entries: seq<string>): (r: seq<string>)
    ensures |r| == |entries|
  {
    if entries == [] then [] else [PackageName(entries[0])] + Names(entries[1..])
  }

  /** Installing two lists of entries one after the other installs their names one after the other. */
  lemma {:induction false} NamesAppend(a: seq<string>, b: seq<string>)
    ensures Names(a + b) == Names(a) + Names(b)
  {
    if a == [] {
      assert a + b == b;
    } else {
      assert (a + b)[1..] == a[1..] + b;
      NamesAppend(a[1..], b);
    }
  }

  /** Entry number `i` installs the name of entry number `i`. */
  lemma {:induction false} NamesAt(entries: seq<string>, i: nat)
    requires i < |entries|
    ensures Names(entries)[i] == PackageName(entries[i])
  {
    if i > 0 {
      NamesAt(entries[1..], i - 1);
    }
  }

  /** A `name==version` entry without whitespace at its ends installs `name`; so does a bare `name`. */
  lemma {:induction false} PackageNameOf(name: string, version: string)
    requires name != "" && '=' !in name && !IsSpace(name[0])
    requires version == "" || !IsSpace(version[|version| - 1])
    ensures PackageName(name + "==" + version) == name
    ensures !IsSpace(name[|name| - 1]) ==> PackageName(name) == name
  {
    var entry := name + "==" + version;
    StripKeeps(entry);
    SplitAfter(name, "==", version);
    if !IsSpace(name[|name| - 1]) {
      StripKeeps(name);
      SplitWithout(name, "==");
    }
  }

  /** One row of the package table: the Select flag, the package name and its version. */
  datatype Row = Row(select: string, name: string, version: string)

  /**
   `package_name, version = package.split('==')` followed by the inserted
   values: a line with exactly one `==` becomes an unselected row; any other
   line makes the unpacking raise.
   */
  function ParseRow(line: string): Option<Row>
  {
    var parts := Split(line, "==");
    if |parts| == 2 then Some(Row("False", parts[0], parts[1])) else None
  }

  /** The `name==version` text rebuilt from a row. */
  function Entry(row: Row): string
  {
    row.name + "==" + row.version
  }

  /** The texts rebuilt from rows, in order. */
  function Entries(rows: seq<Row>): seq<string>
  {
    seq(|rows|, i requires 0 <= i < |rows| => Entry(rows[i]))
  }

  /** A row made from a line is unselected and rebuilds that very line. */
  lemma ParseRowEntry(line: string)
    requires ParseRow(line).Some?
    ensures ParseRow(line).value.select == "False"
    ensures Entry(ParseRow(line).value) == line
  {
    JoinSplit(line, "==");
  }

  /** A line `name==version` with no other `=` becomes the row of that name and version. */
  lemma ParseRowOf(name: string, version: string)
    requires '=' !in name && '=' !in version
    ensures ParseRow(name + "==" + version) == Some(Row("False", name, version))
  {
    SplitAfter(name, "==", version);
    SplitWithout(version, "==");
  }

  /**
   The rows `populate_package_tree` inserts: one per line, in order, up to the
   first line that does not unpack, where the loop stops on the exception.
   */
  function Rows(lines: seq<string>): (r: seq<Row>)
    ensures |r| <= |lines|
  {
    if lines == [] then []
    else match ParseRow(lines[0])
      case None => []
      case Some(row) => [row] + Rows(lines[1..])
  }

  /**
   The rows are those of the longest run of lines, from the first, that all
   unpack; the line after that run, if any, does not.
   */
  lemma {:induction false} RowsShape(lines: seq<string>)
    ensures forall i :: 0 <= i < |Rows(lines)| ==> ParseRow(lines[i]) == Some(Rows(lines)[i])
    ensures |Rows(lines)| < |lines| ==> ParseRow(lines[|Rows(lines)|]).None?
  {
    if lines != [] && ParseRow(lines[0]).Some? {
      RowsShape(lines[1..]);
    }
  }

  /**
   One step of the insertion loop: with the rows of the first `i` lines shown,
   line `i` either adds its row or ends the table there, with a line left
   out.
   */
  lemma InsertStep(lines: seq<string>, i: nat, shown: seq<Row>)
    requires i < |lines| && |shown| == i
    requires shown + Rows(lines[i..]) == Rows(lines)
    ensures ParseRow(lines[i]).Some? ==> (shown + [ParseRow(lines[i]).value]) + Rows(lines[i + 1..]) == Rows(lines)
    ensures ParseRow(lines[i]).None? ==> shown == Rows(lines) && !AllParse(lines)
  {
    assert lines[i..][0] == lines[i];
    assert lines[i..][1..] == lines[i + 1..];
    RowsAll(lines);
  }

  /** With every line shown, the table holds the rows of all lines and none was left out. */
  lemma InsertDone(lines: seq<string>, shown: seq<Row>)
    requires |shown| == |lines|
    requires shown + Rows(lines[|lines|..]) == Rows(lines)
    ensures shown == Rows(lines) && AllParse(lines)
  {
    assert lines[|lines|..] == [];
    RowsAll(lines);
  }

  /** Every line unpacks into a row. */
  predicate AllParse(lines: seq<string>)
  {
    forall i :: 0 <= i < |lines| ==> ParseRow(lines[i]).Some?
  }

  /** Every line becomes a row exactly when every line unpacks. */
  lemma {:induction false} RowsAll(lines: seq<string>)
    ensures |Rows(lines)| == |lines| <==> AllParse(lines)
  {
    if lines != [] {
      RowsAll(lines[1..]);
      if ParseRow(lines[0]).Some? {
        assert AllParse(lines) <==> AllParse(lines[1..]) by {
          forall j | 0 <= j < |lines[1..]| ensures lines[1..][j] == lines[j + 1] {}
        }
      } else {
        assert !AllParse(lines) by {
          assert ParseRow(lines[0]).None?;
        }
      }
    }
  }

  /** The `'True'`/`'False'` flip of `toggle_checkbox`. */
  function Flip(flag: string): string
  {
    if flag == "False" then "True" else "False"
  }

  /** A flip always yields a flag, and flipping twice restores a flag. */
  lemma FlipTwice(flag: string)
    ensures Flip(flag) == "True" || Flip(flag) == "False"
    ensures (flag == "True" || flag == "False") ==> Flip(Flip(flag)) == flag
    ensures Flip(flag) == "True" <==> flag == "False"
  {
  }

  /** The rows whose Select value is `'True'`, in table order. */
  function Selected(rows: seq<Row>): (r: seq<Row>)
    ensures |r| <= |rows|
    ensures forall i :: 0 <= i < |r| ==> r[i].select == "True"
  {
    if rows == [] then []
    else (if rows[0].select == "True" then [rows[0]] else []) + Selected(rows[1..])
  }

  /**
   The selection of two parts of the table is the selection of the first
   followed by that of the second: the selection keeps table order.
   */
  lemma {:induction false} SelectedAppend(a: seq<Row>, b: seq<Row>)
    ensures Selected(a + b) == Selected(a) + Selected(b)
  {
    if a == [] {
      assert a + b == b;
    } else {
      assert (a + b)[1..] == a[1..] + b;
      SelectedAppend(a[1..], b);
      assert Selected(a + b) == (if a[0].select == "True" then [a[0]] else []) + Selected(a[1..] + b);
    }
  }

  /** A row is in the selection exactly when it is in the table with its flag set. */
  lemma {:induction false} SelectedMembers(rows: seq<Row>, x: Row)
    ensures x in Selected(rows) <==> x in rows && x.select == "True"
  {
    if rows != [] {
      SelectedMembers(rows[1..], x);
      assert rows == [rows[0]] + rows[1..];
    }
  }

  /** A freshly populated table has nothing selected. */
  lemma {:induction false} FreshRowsUnselected(lines: seq<string>)
    ensures Selected(Rows(lines)) == []
  {
    if lines != [] && ParseRow(lines[0]).Some? {
      FreshRowsUnselected(lines[1..]);
    }
  }
}
