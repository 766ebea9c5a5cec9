/**
 The Python string operations both programs rely on, on `seq<char>`:
 `sep.join(parts)`, `s.split(sep)` with an explicit separator, `s.strip()`
 with no argument and `s.split()` with no argument.
 */
module Text {

  /** Python's `str.isspace()` for one character: what `strip()` and `split()` treat as whitespace. */
  predicate IsSpace(c: char)
  {
    var n := c as int;
    n == 0x20 || 0x09 <= n <= 0x0D || 0x1C <= n <= 0x1F || n == 0x85 || n == 0xA0 || n == 0x1680
    || 0x2000 <= n <= 0x200A || n == 0x2028 || n == 0x2029 || n == 0x202F || n == 0x205F || n == 0x3000
  }

  /** No character of `s` is whitespace. */
  predicate NoSpace(s: string)
  {
    forall i :: 0 <= i < |s| ==> !IsSpace(s[i])
  }

  /** `sep.join(parts)`: the parts with one separator between neighbours. */
  function Join(sep: string, parts: seq<string>): string
  {
    if |parts| == 0 then ""
    else if |parts| == 1 then parts[0]
    else parts[0] + sep + Join(sep, parts[1..])
  }

  /**
   `s.split(sep)` for a non-empty separator: the occurrences of `sep`, found
   scanning left to right without overlap, cut `s` into pieces. There is always
   at least one piece (`"".split(sep) == [""]`).
   */
  function Split(s: string, sep: string): (r: seq<string>)
    requires sep != ""
    ensures |r| >= 1
    decreases |s|
  {
    if |s| < |sep| then [s]
    else if s[..|sep|] == sep then [""] + Split(s[|sep|..], sep)
    else
      var rest := Split(s[1..], sep);
      [[s[0]] + rest[0]] + rest[1..]
  }

  /** Joining after an empty first part puts a separator in front. */
  lemma JoinAfterEmpty(sep: string, rest: seq<string>)
    requires |rest| >= 1
    ensures Join(sep, [""] + rest) == sep + Join(sep, rest)
  {
    assert ([""] + rest)[1..] == rest;
  }

  /** Joining after growing the first part by one character grows the joined text by that character. */
  lemma JoinGrowFirst(sep: string, c: char, rest: seq<string>)
    requires |rest| >= 1
    ensures Join(sep, [[c] + rest[0]] + rest[1..]) == [c] + Join(sep, rest)
  {
    var r := [[c] + rest[0]] + rest[1..];
    if |rest| > 1 {
      assert r[1..] == rest[1..];
      assert Join(sep, r) == [c] + rest[0] + sep + Join(sep, rest[1..]);
    }
  }

  /** Joining the pieces of a split with the same separator gives back the text. */
  lemma {:induction false} JoinSplit(s: string, sep: string)
    requires sep != ""
    ensures Join(sep, Split(s, sep)) == s
    decreases |s|
  {
    if |s| < |sep| {
      assert Split(s, sep) == [s];
    } else if s[..|sep|] == sep {
      var rest := Split(s[|sep|..], sep);
      assert Split(s, sep) == [""] + rest;
      JoinSplit(s[|sep|..], sep);
      JoinAfterEmpty(sep, rest);
      assert s == sep + s[|sep|..];
    } else {
      var rest := Split(s[1..], sep);
      assert Split(s, sep) == [[s[0]] + rest[0]] + rest[1..];
      JoinSplit(s[1..], sep);
      JoinGrowFirst(sep, s[0], rest);
      assert s == [s[0]] + s[1..];
    }
  }

  /** A text whose characters avoid the separator's first character is one piece. */
  lemma {:induction false} SplitWithout(a: string, sep: string)
    requires sep != "" && sep[0] !in a
    ensures Split(a, sep) == [a]
    decreases |a|
  {
    if |a| >= |sep| {
      assert a[..|sep|][0] == a[0] != sep[0];
      SplitWithout(a[1..], sep);
      assert [a[0]] + a[1..] == a;
    }
  }

  /** A leading piece that avoids the separator's first character is cut at the first separator. */
  lemma {:induction false} SplitAfter(a: string, sep: string, b: string)
    requires sep != "" && sep[0] !in a
    ensures Split(a + sep + b, sep) == [a] + Split(b, sep)
    decreases |a|
  {
    var s := a + sep + b;
    if a == "" {
      assert s[..|sep|] == sep && s[|sep|..] == b;
      assert Split(s, sep) == [""] + Split(b, sep);
    } else {
      assert s[..|sep|][0] == a[0] != sep[0];
      var rest := Split(s[1..], sep);
      assert Split(s, sep) == [[s[0]] + rest[0]] + rest[1..];
      assert s[1..] == a[1..] + sep + b;
      SplitAfter(a[1..], sep, b);
      assert rest == [a[1..]] + Split(b, sep);
      assert [a[0]] + a[1..] == a;
    }
  }

  /**
   Splitting on a one-character separator undoes joining with it, as long as
   no part contains that character.
   */
  lemma {:induction false} SplitJoin(parts: seq<string>, c: char)
    requires |parts| >= 1
    requires forall i :: 0 <= i < |parts| ==> c !in parts[i]
    ensures Split(Join([c], parts), [c]) == parts
    decreases |parts|
  {
    if |parts| == 1 {
      SplitWithout(parts[0], [c]);
    } else {
      SplitJoin(parts[1..], c);
      SplitAfter(parts[0], [c], Join([c], parts[1..]));
      assert [parts[0]] + parts[1..] == parts;
    }
  }

  /** No piece of a split on a one-character separator contains that character. */
  lemma {:induction false} SplitPieces(s: string, c: char)
    ensures forall i :: 0 <= i < |Split(s, [c])| ==> c !in Split(s, [c])[i]
    decreases |s|
  {
    if |s| >= 1 {
      SplitPieces(s[1..], c);
      if s[..1] == [c] {
        assert s[1..] == s[|[c]|..];
      }
    }
  }

  /** Joining is empty exactly for no parts or a single empty part. */
  lemma JoinEmpty(sep: string, parts: seq<string>)
    requires sep != ""
    ensures Join(sep, parts) == "" <==> parts == [] || parts == [""]
  {
    if |parts| >= 2 {
      assert |Join(sep, parts)| >= |sep|;
    }
  }

  /** `s.lstrip()`: drops the leading whitespace. */
  function TrimStart(s: string): (r: string)
    ensures |r| <= |s|
    ensures r == "" || !IsSpace(r[0])
  {
    if |s| > 0 && IsSpace(s[0]) then TrimStart(s[1..]) else s
  }

  /** What `lstrip()` drops is a run of whitespace at the front; the rest is kept as it was. */
  lemma {:induction false} TrimStartShape(s: string)
    ensures TrimStart(s) == s[|s| - |TrimStart(s)|..]
    ensures forall i :: 0 <= i < |s| - |TrimStart(s)| ==> IsSpace(s[i])
    decreases |s|
  {
    if |s| > 0 && IsSpace(s[0]) {
      TrimStartShape(s[1..]);
    }
  }

  /** `s.rstrip()`: drops the trailing whitespace. */
  function TrimEnd(s: string): (r: string)
    ensures |r| <= |s|
    ensures r == "" || !IsSpace(r[|r| - 1])
  {
    if |s| > 0 && IsSpace(s[|s| - 1]) then TrimEnd(s[..|s| - 1]) else s
  }

  /** What `rstrip()` drops is a run of whitespace at the back; the rest is kept as it was. */
  lemma {:induction false} TrimEndShape(s: string)
    ensures TrimEnd(s) == s[..|TrimEnd(s)|]
    ensures forall i :: |TrimEnd(s)| <= i < |s| ==> IsSpace(s[i])
    decreases |s|
  {
    if |s| > 0 && IsSpace(s[|s| - 1]) {
      TrimEndShape(s[..|s| - 1]);
    }
  }

  /** `s.strip()`: drops the whitespace at both ends. */
  function Strip(s: string): string
  {
    TrimEnd(TrimStart(s))
  }

  /** A text without whitespace at either end is left as it is by `strip()`. */
  lemma StripKeeps(s: string)
    requires s == "" || (!IsSpace(s[0]) && !IsSpace(s[|s| - 1]))
    ensures Strip(s) == s
  {
  }

  /** `strip()` leaves nothing exactly when every character is whitespace. */
  lemma StripEmpty(s: string)
    ensures Strip(s) == "" <==> (forall i :: 0 <= i < |s| ==> IsSpace(s[i]))
  {
    var t := TrimStart(s);
    TrimStartShape(s);
    TrimEndShape(t);
    assert t == "" || t[0] == s[|s| - |t|];
  }

  /** The longest prefix of `s` without whitespace. */
  function Token(s: string): (r: string)
    ensures |r| <= |s|
  {
    if |s| > 0 && !IsSpace(s[0]) then [s[0]] + Token(s[1..]) else ""
  }

  /** The token is a prefix without whitespace that ends at the end of the text or at whitespace. */
  lemma {:induction false} TokenShape(s: string)
    ensures Token(s) == s[..|Token(s)|]
    ensures NoSpace(Token(s))
    ensures |Token(s)| == |s| || IsSpace(s[|Token(s)|])
    decreases |s|
  {
    if |s| > 0 && !IsSpace(s[0]) {
      TokenShape(s[1..]);
    }
  }

  /**
   `s.split()` with no argument: the maximal runs of non-whitespace
   characters, in order.
   */
  function Words(s: string): seq<string>
    decreases |s|
  {
    var t := TrimStart(s);
    if t == "" then []
    else
      var w := Token(t);
      assert w != "";
      [w] + Words(t[|w|..])
  }

  /** No word of `split()` is empty or holds whitespace. */
  lemma {:induction false} WordsShape(s: string)
    ensures forall i :: 0 <= i < |Words(s)| ==> Words(s)[i] != "" && NoSpace(Words(s)[i])
    decreases |s|
  {
    var t := TrimStart(s);
    if t != "" {
      var w := Token(t);
      TokenShape(t);
      WordsShape(t[|w|..]);
    }
  }

  /** `split()` finds no word exactly when every character is whitespace. */
  lemma WordsNone(s: string)
    ensures Words(s) == [] <==> (forall i :: 0 <= i < |s| ==> IsSpace(s[i]))
  {
    var t := TrimStart(s);
    TrimStartShape(s);
    assert t == "" || t[0] == s[|s| - |t|];
  }

  /** A text that starts with a word followed by whitespace or nothing has that word first. */
  lemma {:induction false} FirstWord(w: string, tail: string)
    requires w != "" && NoSpace(w)
    requires tail == "" || IsSpace(tail[0])
    ensures Words(w + tail) != [] && Words(w + tail)[0] == w
  {
    var s := w + tail;
    assert TrimStart(s) == s by {
      assert s[0] == w[0];
    }
    TokenOf(w, tail);
  }

  /** The token of a word followed by whitespace or nothing is that word. */
  lemma {:induction false} TokenOf(w: string, tail: string)
    requires NoSpace(w)
    requires tail == "" || IsSpace(tail[0])
    ensures Token(w + tail) == w
    decreases |w|
  {
    if w != "" {
      assert (w + tail)[1..] == w[1..] + tail;
      TokenOf(w[1..], tail);
      assert [w[0]] + w[1..] == w;
    } else {
      assert w + tail == tail;
    }
  }
}
