/**
 What the programs talk to, reduced to state: the Redis database (the `users`
 hash and one plain key per user), and the machine's side of a replay (the
 `pip3 install` invocations and the progress messages reported around them).
 */
module Backend {
  import opened Wrappers

  /** The value stored under `key`, or None when `key` is absent: what a Redis read returns. */
  function Lookup(m: map<string, string>, key: string): Option<string>
  {
    if key in m then Some(m[key]) else None
  }

  /**
   The Redis database: `users` is the hash of username to password, `kv` the
   plain string keys, one per username, holding that user's manifest text.
   */
  class Store {
    var users: map<string, string>
    var kv: map<string, string>

    constructor ()
      ensures users == map[] && kv == map[]
    {
      users := map[];
      kv := map[];
    }

    /** `HGET users field`: the field's value, or None when it is absent. */
    function HGet(field: string): Option<string>
      reads this
    {
      Lookup(users, field)
    }

    /** `HEXISTS users field`. */
    function HExists(field: string): bool
      reads this
    {
      field in users
    }

    /** `HSET users field value`: sets one field and nothing else. */
    method HSet(field: string, value: string)
      modifies this
      ensures users == old(users)[field := value] && kv == old(kv)
    {
      users := users[field := value];
    }

    /** `GET key`: the key's value, or None when it is absent. */
    function Get(key: string): Option<string>
      reads this
    {
      Lookup(kv, key)
    }

    /** `SET key value`: overwrites one key and nothing else. */
    method Set(key: string, value: string)
      modifies this
      ensures kv == old(kv)[key := value] && users == old(users)
    {
      kv := kv[key := value];
    }
  }

  /** A progress message: the one reported before installing `name`, or the one reported after it. */
  datatype Message = Starting(name: string) | Finished(name: string)

  /** The text a progress message shows. */
  function Shown(m: Message): string
  {
    match m
    case Starting(name) => "Downloading and installing " + name + "..."
    case Finished(name) => name + " has been downloaded and installed."
  }

  /** The text of a message tells which message it is: no two messages show the same text. */
  lemma ShownDistinct(m: Message, n: Message)
    ensures Shown(m) == Shown(n) ==> m == n
  {
    var p, q := "Downloading and installing ", "...";
    var r := " has been downloaded and installed.";
    if Shown(m) == Shown(n) {
      var t := Shown(m);
      match m
      case Starting(a) =>
        assert t == p + a + q;
        assert t[|t| - 2] == '.';
        if n.Starting? {
          assert t == p + n.name + q;
          assert a == t[|p|..|t| - |q|] == n.name;
        }
      case Finished(a) =>
        assert t == a + r;
        assert t[|t| - 2] == 'd';
        if n.Finished? {
          assert t == n.name + r;
          assert a == t[..|t| - |r|] == n.name;
        }
    }
  }

  /** What the machine sees during a replay, in order: a progress message reported, or one `pip3 install` run. */
  datatype Event = Said(message: Message) | Ran(name: string)

  /**
   The local machine during a replay: `events` lists, in the order they
   happened, the progress messages reported and the package names passed to
   `pip3 install`.
   */
  class Host {
    var events: seq<Event>

    constructor ()
      ensures events == []
    {
      events := [];
    }

    /** `subprocess.call(['pip3', 'install', name])`; its exit code is ignored by every caller. */
    method Install(name: string)
      modifies this
      ensures events == old(events) + [Ran(name)]
    {
      events := events + [Ran(name)];
    }

    /** One progress message. */
    method Report(message: Message)
      modifies this
      ensures events == old(events) + [Said(message)]
    {
      events := events + [Said(message)];
    }
  }

  /** The events of installing `names` in order: each install between its announcement and its completion message. */
  function Trace(names: seq<string>): (r: seq<Event>)
    ensures |r| == 3 * |names|
  {
    if names == [] then []
    else [Said(Starting(names[0])), Ran(names[0]), Said(Finished(names[0]))] + Trace(names[1..])
  }

  /** Install number `i` is announced at position `3 * i`, run at `3 * i + 1` and reported finished at `3 * i + 2`. */
  lemma {:induction false} TraceAt(names: seq<string>, i: nat)
    requires i < |names|
    ensures Trace(names)[3 * i] == Said(Starting(names[i]))
    ensures Trace(names)[3 * i + 1] == Ran(names[i])
    ensures Trace(names)[3 * i + 2] == Said(Finished(names[i]))
  {
    if i > 0 {
      TraceAt(names[1..], i - 1);
    }
  }

  /** Every install in a trace comes right after its announcement and right before its completion message. */
  lemma {:induction false} TraceBracketed(names: seq<string>, k: nat)
    requires k < |Trace(names)| && Trace(names)[k].Ran?
    ensures 0 < k < |Trace(names)| - 1
    ensures Trace(names)[k - 1] == Said(Starting(Trace(names)[k].name))
    ensures Trace(names)[k + 1] == Said(Finished(Trace(names)[k].name))
  {
    var t := Trace(names);
    var rest := Trace(names[1..]);
    assert t == t[..3] + rest;
    if k >= 3 {
      assert t[k] == rest[k - 3];
      TraceBracketed(names[1..], k - 3);
      assert t[k - 1] == rest[k - 4];
      assert t[k + 1] == rest[k - 2];
    }
  }

  /** Installing `a` and then `b` yields the events of `a` and then those of `b`. */
  lemma {:induction false} TraceAppend(a: seq<string>, b: seq<string>)
    ensures Trace(a + b) == Trace(a) + Trace(b)
  {
    if a == [] {
      assert a + b == b;
    } else {
      assert (a + b)[1..] == a[1..] + b;
      TraceAppend(a[1..], b);
    }
  }

  /** The names passed to `pip3 install`, in call order. */
  function Installed(events: seq<Event>): (r: seq<string>)
    ensures |r| <= |events|
  {
    if events == [] then []
    else (if events[0].Ran? then [events[0].name] else []) + Installed(events[1..])
  }

  /** The installs of two runs of events are those of the first followed by those of the second. */
  lemma {:induction false} InstalledAppend(a: seq<Event>, b: seq<Event>)
    ensures Installed(a + b) == Installed(a) + Installed(b)
  {
    if a == [] {
      assert a + b == b;
    } else {
      assert (a + b)[1..] == a[1..] + b;
      InstalledAppend(a[1..], b);
      assert Installed(a + b) == (if a[0].Ran? then [a[0].name] else []) + Installed(a[1..] + b);
    }
  }

  /** The trace of installing `names` runs `pip3 install` exactly on `names`, once each, in order. */
  lemma {:induction false} InstalledTrace(names: seq<string>)
    ensures Installed(Trace(names)) == names
  {
    if names != [] {
      var n := names[0];
      var head := [Said(Starting(n)), Ran(n), Said(Finished(n))];
      InstalledTrace(names[1..]);
      InstalledAppend(head, Trace(names[1..]));
      assert Installed(head) == [n] by {
        assert head[1..] == [Ran(n), Said(Finished(n))];
        assert head[1..][1..] == [Said(Finished(n))];
        assert head[1..][1..][1..] == [];
        assert Installed(head[1..][1..]) == [];
      }
      assert names == [n] + names[1..];
    }
  }
}
