# pip list record and replay, modelled in Dafny

The repository has two clients that do the same job. They record the
packages installed on one machine under a user's account in Redis, and they
replay that record on another machine by running `pip3 install` once per
recorded package.

- `app-gui.py` is a tkinter window. It has an account check, a table of the
  local packages with a Select flag per row, and buttons that upload all
  packages or the selected ones, and that download all packages or the
  selected ones.
- `app.py` is a text menu. It has login, signup, upload of the raw
  `pip3 list` text, download of everything, and sign out.

The model keeps the state these programs change and the rules they apply.

- The Redis database is a `Store` object with two maps:
  - `users` is the `users` hash, from username to password.
  - `kv` holds the plain keys, one per username, with that user's manifest
    text.
- The machine's side of a replay is a `Host` object with one event log, in
  the order things happened. Each event is either a progress message
  reported or a package name passed to `pip3 install`.
- The window is an `App` object with two fields: the logged-in user and the
  rows of the package table.
- The menu loop carries the logged-in username from one pass to the next.

Python's string operations are written out on `seq<char>` in module `Text`:
`sep.join`, `split(sep)`, `strip()` and `split()` with no argument. So the
package names a replay installs are computed from the manifest text exactly
as the programs compute them.

Modules:

- `Wrappers`: `Option`.
- `Text`: the string operations and their laws. The main laws are the
  split/join round trip in both directions and the shape of `strip` and
  `split()`.
- `Backend`: the Redis store, the host's event log and the progress
  messages.
- `GuiRules`: the pure rules of `app-gui.py`:
  - the login check;
  - the list read from `pip list --format=freeze`;
  - the package name of a manifest entry;
  - table rows, the flag toggle and the selection.
- `GuiManagers`: `UserManager.signup` and the `PackageManager` operations
  that write the store or install packages.
- `GuiApp`: the `App` class and its button handlers.
- `Cli`: `app.py`, meaning one attempt of each prompt, the upload, the
  token-by-token replay and the menu state machine.

What is proved, in outline:

- Signup never overwrites an account.
- The two login checks differ: the window refuses every account whose
  stored password is empty, and the menu accepts such an account when an
  empty password is entered.
- Uploading an empty selection writes nothing. Otherwise it overwrites one
  key with the entries joined by newlines.
- A download logs exactly one install per entry, in order. Each install comes
  right after its "Downloading and installing" message and right before its
  "has been downloaded and installed" message.
- Uploading a non-empty list of newline-free entries that is not a single
  empty entry, and then downloading everything, installs the name of every
  entry, in the order uploaded. An empty list writes nothing, and a single
  empty entry stores the empty text, which the download reads as nothing
  stored.
- A freeze line with exactly one `==` becomes an unselected row. That row
  rebuilds the very line.
- The selection is the in-order filter of the rows flagged `'True'`.
- The buttons that check for a login change nothing while nobody is logged
  in.
- While the menu loop holds a username, that account exists. The loop never
  alters an existing account.
- Replaying any stored `pip3 list` table installs `Package`, the first word of
  its heading line, and the rule of dashes under it as if they were
  packages. Both come before the real packages.

## Model

| member | source | states |
|---|---|---|
| Backend.Lookup | app-gui.py:37 | what a Redis read returns: the stored text, or None for an absent key; shared by `HGet` and `Get` |
| Backend.Store.HGet | app-gui.py:37 | `HGET users field`: the stored password, or None for an absent field; both login functions take its result |
| Backend.Store.HExists | app-gui.py:43 | `HEXISTS users field` |
| Backend.Store.HSet | app-gui.py:44 | `HSET users field value` sets that one field; the plain keys are untouched |
| Backend.Store.Get | app-gui.py:110 | `GET key`: the stored text, or None for an absent key |
| Backend.Store.Set | app-gui.py:83 | `SET key value` overwrites that one key; the `users` hash is untouched |
| Backend.Host.Install | app-gui.py:104 | one `pip3 install name` appended to the event log |
| Backend.Host.Report | app-gui.py:103 | one progress message appended to the event log |
| Backend.Shown | app-gui.py:103-105 | the two f-string messages; `ShownDistinct` is its law |
| Backend.ShownDistinct | app-gui.py:103-105 | no two progress messages show the same text, so the event log determines what was printed |
| Backend.Trace | app-gui.py:99-105 | three events per installed package; its laws are `TraceAt`, `TraceBracketed`, `TraceAppend` and `InstalledTrace` |
| Backend.TraceAt | app-gui.py:99-105 | install number i is announced at position 3i, run at 3i+1 and reported finished at 3i+2 |
| Backend.TraceBracketed | app-gui.py:103-105 | every `pip3 install` in a trace comes right after its announcement and right before its completion message |
| Backend.TraceAppend | app-gui.py:99-105 | the events of two runs of installs are those of the first followed by those of the second |
| Backend.Installed | app-gui.py:104 | the names passed to `pip3 install`, in call order; there are no more of them than events |
| Backend.InstalledAppend | app-gui.py:104 | the installs of two runs of events are those of the first followed by those of the second |
| Backend.InstalledTrace | app-gui.py:99-105 | the trace of installing a list of names runs `pip3 install` on exactly those names, once each, in order |
| Text.IsSpace | app.py:68 | the characters Python's `str.isspace()` accepts, used by `strip()` (app-gui.py:100) and by `split()` with no argument (app.py:68) |
| Text.Join | app-gui.py:82 | `sep.join(parts)`; its laws are `JoinSplit`, `SplitJoin` and `JoinEmpty` |
| Text.Split | app-gui.py:100 | `s.split(sep)` always has at least one piece; its laws are `JoinSplit`, `SplitJoin`, `SplitPieces`, `SplitWithout` and `SplitAfter` |
| Text.Strip | app-gui.py:100 | `s.strip()`, being `rstrip` after `lstrip`; its laws are `StripKeeps` and `StripEmpty` |
| Text.Words | app.py:68 | `s.split()` with no argument; its laws are `WordsShape`, `WordsNone` and `FirstWord` |
| Text.JoinSplit | app-gui.py:113 | `sep.join(s.split(sep)) == s` for every text and non-empty separator |
| Text.SplitJoin | app-gui.py:82 | splitting on a one-character separator undoes joining with it when no part contains that character |
| Text.SplitPieces | app-gui.py:68 | no piece of a split on a character contains that character |
| Text.SplitWithout | app-gui.py:100 | a text without the separator's first character splits into itself alone |
| Text.SplitAfter | app-gui.py:100 | a text `a + sep + b` whose lead `a` avoids the separator's first character splits into `a` followed by the pieces of `b` |
| Text.JoinEmpty | app-gui.py:112 | a join is the empty text exactly for no parts or one empty part |
| Text.TrimStart | app-gui.py:100 | `lstrip()` is no longer than its input and does not start with whitespace |
| Text.TrimStartShape | app-gui.py:100 | `lstrip()` drops a leading run of whitespace and keeps the rest as it was |
| Text.TrimEnd | app-gui.py:100 | `rstrip()` is no longer than its input and does not end with whitespace |
| Text.TrimEndShape | app-gui.py:100 | `rstrip()` drops a trailing run of whitespace and keeps the rest as it was |
| Text.StripKeeps | app-gui.py:100 | `strip()` leaves a text without edge whitespace unchanged |
| Text.StripEmpty | app-gui.py:68 | `strip()` is empty exactly when every character is whitespace |
| Text.Token | app.py:68 | the leading token is no longer than the text |
| Text.TokenShape | app.py:68 | the leading token is a whitespace-free prefix that ends at whitespace or at the end |
| Text.WordsShape | app.py:68 | the words of `split()` are non-empty and hold no whitespace |
| Text.WordsNone | app.py:68 | `split()` finds no word exactly when every character is whitespace |
| Text.FirstWord | app.py:68-70 | a text that starts with a word followed by whitespace or nothing has that word first |
| Text.TokenOf | app.py:68 | the leading token of a word followed by whitespace or nothing is that word |
| GuiRules.Login | app-gui.py:36-40 | `UserManager.login`; its laws are `LoginAfterSignup`, `LoginIndependent` and `Cli.LoginPoliciesDiffer` |
| GuiRules.LoginIndependent | app-gui.py:36-40 | whether one account logs in does not depend on any other account, so another user's signup never changes it |
| GuiRules.LoginAfterSignup | app-gui.py:36-46 | a fresh account logs in with its own password unless that password is empty, and never with another |
| GuiRules.LocalPipList | app-gui.py:60-74 | `get_local_pip_list_using_pip`; its law is `LocalPipListShape` |
| GuiRules.LocalPipListShape | app-gui.py:60-74 | the list is empty exactly when pip did not exit with 0; otherwise its lines hold no newline and joined by newlines give the stripped output |
| GuiRules.PackageName | app-gui.py:100-102 | the stripped entry up to its first `==`; its law is `PackageNameOf` |
| GuiRules.Names | app-gui.py:99-102 | one package name per entry |
| GuiRules.NamesAt | app-gui.py:99-102 | entry number i installs the text of entry i up to its first `==`, after `strip()` |
| GuiRules.NamesAppend | app-gui.py:99-102 | the names of two runs of entries are those of the first followed by those of the second |
| GuiRules.PackageNameOf | app-gui.py:100-102 | the entry `name==version` installs `name`, and so does a bare `name` |
| GuiRules.ParseRow | app-gui.py:234 | `package_name, version = package.split('==')`; its laws are `ParseRowEntry` and `ParseRowOf` |
| GuiRules.Entry | app-gui.py:255 | `f"{package[1]}=={package[2]}"`; its law is `ParseRowEntry` |
| GuiRules.Entries | app-gui.py:302 | the rebuild comprehension over the selected rows; its law is `ParseRowEntry` |
| GuiRules.ParseRowEntry | app-gui.py:234-235 | a row made from a line is unselected and rebuilds the line as `name==version` |
| GuiRules.ParseRowOf | app-gui.py:234-235 | the line `name==version`, with no other `=`, becomes the unselected row of that name and version |
| GuiRules.Rows | app-gui.py:233-235 | at most one row per line |
| GuiRules.RowsShape | app-gui.py:233-235 | the rows are those of the longest leading run of lines that unpack, and the next line, if any, does not unpack |
| GuiRules.RowsAll | app-gui.py:233-235 | every line becomes a row exactly when every line unpacks into two parts |
| GuiRules.InsertStep | app-gui.py:233-235 | line i either appends its row to the table or ends the table, with some line left out |
| GuiRules.InsertDone | app-gui.py:233-235 | once every line is shown, the table holds all rows and every line unpacked |
| GuiRules.Flip | app-gui.py:201 | the new flag of a toggled row; its law is `FlipTwice` |
| GuiRules.FlipTwice | app-gui.py:199-202 | a flip gives `'True'` exactly from `'False'`, always yields a flag, and flipping a flag twice restores it |
| GuiRules.Selected | app-gui.py:250 | the selection is no longer than the table and every selected row is flagged `'True'` |
| GuiRules.SelectedAppend | app-gui.py:250 | the selection of two parts of the table is the first part's selection followed by the second's |
| GuiRules.SelectedMembers | app-gui.py:297 | a row is selected exactly when it is in the table and flagged `'True'` |
| GuiRules.FreshRowsUnselected | app-gui.py:230-235 | a freshly populated table has nothing selected |
| GuiManagers.Signup | app-gui.py:42-46 | a taken name returns None and leaves the accounts alone; a new name is stored with its password verbatim, nothing else changes, and the user returned has that name |
| GuiManagers.UploadPip | app-gui.py:77-85 | an empty list returns False and writes nothing; otherwise the newline join overwrites the user's key and no other key |
| GuiManagers.UploadAllPip | app-gui.py:87-91 | succeeds exactly when pip exits with 0, and then stores pip's stripped output under the user's key; otherwise nothing is written |
| GuiManagers.InstallEach | app-gui.py:99-105 | one install per entry, in order, of the stripped text before the first `==`, each between its two messages |
| GuiManagers.DownloadPip | app-gui.py:94-106 | an empty list returns False and installs nothing; otherwise every entry is installed in order and the result is True, whatever the installs did |
| GuiManagers.DownloadAllPackages | app-gui.py:109-124 | an absent or empty record returns False and installs nothing; otherwise each newline-separated line is installed in order and the result is True |
| GuiManagers.ReplayAfterUpload | app-gui.py:77-124 | uploading newline-free entries that are not a single empty entry, then downloading everything, installs the name of each entry in the uploaded order |
| GuiApp.App.constructor | app-gui.py:126-134 | the window starts logged out with an empty table |
| GuiApp.App.PopulatePackageTree | app-gui.py:230-235 | the table is cleared and refilled with the rows of pip's list up to the first line that does not unpack; the flag says whether every line was shown |
| GuiApp.App.InsertRows | app-gui.py:233-235 | the insertion loop appends the row of each line in order until a line does not unpack |
| GuiApp.App.Login | app-gui.py:204-215 | a successful login sets the user and repopulates the table; a failed one changes nothing |
| GuiApp.App.Signup | app-gui.py:217-228 | a new account is stored, becomes the user, and the table is repopulated; a taken name changes nothing |
| GuiApp.App.Logout | app-gui.py:328-350 | nobody is logged in and the table is emptied |
| GuiApp.App.ToggleCheckbox | app-gui.py:191-202 | a click in the Select column on an existing row flips that row's flag; any other click changes nothing |
| GuiApp.App.UploadAllPip | app-gui.py:237-247 | refused with no write while logged out; otherwise the result of uploading pip's whole list |
| GuiApp.App.UploadPip | app-gui.py:249-261 | nothing selected writes nothing; otherwise the selected rows, rebuilt as `name==version` in table order, are stored under the user's key |
| GuiApp.App.DownloadAllPip | app-gui.py:263-290 | refused with no install while logged out; otherwise the user's record is replayed |
| GuiApp.App.DownloadSelectedPip | app-gui.py:292-326 | refused with no install while logged out; otherwise the selected rows are installed in table order |
| Cli.Login | app.py:28-33 | one attempt of `login()`; its law is `LoginPoliciesDiffer` |
| Cli.LoginPoliciesDiffer | app.py:28-33 | the window's login succeeds exactly when the menu's succeeds with a non-empty password, and both return the same name |
| Cli.Signup | app.py:35-45 | a taken name leaves the accounts alone; a new name is stored with its password verbatim |
| Cli.UploadPip | app.py:56-60 | the listing text is stored verbatim under the username; with no listing nothing is written |
| Cli.PackageName | app.py:67-70 | the first token of a non-empty line, if any; its laws are `PackageNameOf` and `BlankLineSkipped` |
| Cli.StoredNames | app.py:63-66 | what a replay of a user's record installs; its laws are those of `Names` |
| Cli.Names | app.py:65-73 | at most one install per line |
| Cli.NamesShape | app.py:65-73 | every name installed is a non-empty token without whitespace |
| Cli.NamesAppend | app.py:65-73 | the names of two runs of lines are those of the first followed by those of the second |
| Cli.PackageNameOf | app.py:67-70 | a line starting with a token followed by whitespace or nothing installs that token |
| Cli.BlankLineSkipped | app.py:67-69 | a line of whitespace only installs nothing |
| Cli.NamesOfTokens | app.py:65-73 | lines that each start with a token followed by whitespace or nothing install those tokens, one per line, in order |
| Cli.TableHeadingReplayed | app.py:47-73 | any stored `pip3 list` table, whose heading starts with `Package` and whose second line is a rule, installs `Package` and the rule before the names of the lines below |
| Cli.ReplayLine | app.py:67-73 | a line with a token installs its first token between the two messages, and any other line does nothing |
| Cli.ReplayLines | app.py:66-73 | the lines are replayed in order, one install per line that has a token |
| Cli.DownloadAllPackages | app.py:62-75 | an absent or empty record installs nothing; otherwise the first token of every line, in order, each between its two messages |
| Cli.MenuStep | app.py:84-105 | '1' logs in on a match, '2' creates an account without logging in, '3' and '4' act only while logged in, '5' signs out or quits, and anything else changes nothing |
| Cli.RunMenu | app.py:77-105 | the username held always names an existing account, no account is ever altered, and the loop ends early only on '5' typed while logged out |

## Left out

- The tkinter widgets, their layout, the message boxes, the progress window
  and `update_idletasks` are not modelled. Login and signup return whether
  they succeeded, logout and the checkbox click return nothing, and the
  upload and download handlers return a `Notice`. The progress callback
  appends to the host's log.
- Hit-testing with `identify`, `identify_row` and `identify_column` is not
  modelled. The region, row index and column a click lands on are
  parameters of `ToggleCheckbox`. A click below the last row finds no row,
  and the model promises only that no visible row changes. What tkinter
  does with the empty item name is not modelled.
- `toggle_buttons` is not modelled as its own operation. Only its effect on
  the table (emptied at logout) is kept. Buttons disabled in a state are not
  modelled as unreachable: every handler is modelled in every state.
- The Redis connection, dotenv and environment parsing are not modelled.
  Redis keeps the `users` hash and the per-user keys in one keyspace. The
  model keeps two separate maps, so uploading as a user named `users`, which
  runs `SET users` (app-gui.py:83, app.py:59) and replaces the accounts
  hash, is not modelled: `GuiManagers.UploadPip`'s promise that the accounts
  are unchanged, and `Keeps` in `Cli.RunMenu`, hold in the program only for
  other usernames.
- The real `pip` subprocesses are not modelled.
  - `pip list --format=freeze` is an input value: its exit code and
    standard output, or an exception.
  - `pip3 list` in `app.py` is an optional listing text.
  - `pip3 install` is an entry in the install log. Its exit code is ignored
    by every caller, so it is not modelled.
- `PackageManager.get_local_pip_list` (app-gui.py:50-57) is not modelled. It
  enumerates `pkg_resources`, and no handler calls it.
- Prompting with `askstring`, `input` and `getpass` is not modelled. The
  typed values are parameters. A cancelled `askstring` (None) is not
  modelled.
- The `while True` retry loops of `login()` and `signup()` in `app.py` are
  not modelled. Each is one attempt:
  - A failed login attempt leaves the state as it was, where the program
    would prompt again.
  - A failed signup attempt writes nothing.
- `print` output other than the progress messages is not modelled. In
  `app.py` the two messages printed around each install are logged as
  progress messages, with the same wording as the window's callback.
- Exceptions are modelled in two places only:
  - the failure of the pip list run;
  - the unpacking error in `populate_package_tree`, which stops the loop and
    keeps the rows inserted so far.
  Redis errors and tkinter errors are not modelled.
- Launch and decoding errors are not modelled. These errors are not caught:
  - `subprocess.call(['pip3', 'install', ...])` raises when `pip3` cannot be
    started. That ends a download loop part-way (app-gui.py:104,
    app-gui.py:119, app.py:72), and the model always runs the loop to its end.
  - `get_local_pip_list` in `app.py` catches only a non-zero exit
    (app.py:50-54). A missing `pip3` or output that is not UTF-8 ends the
    menu program there. The model's listing is either a text or None for a
    non-zero exit.
- Passwords are stored and compared as plain text, as the code does. The
  code has no hashing and no separate authentication failure, so the model
  has neither.
- The record stored from pip's list is its output after `strip()`. The code
  strips the output before cutting it into lines, so the model does too.
  A whitespace-only output therefore gives one empty line, and that line is
  uploaded as the empty text.
