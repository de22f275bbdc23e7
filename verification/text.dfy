/**
 * The string operations the command interpreter uses: `text.startsWith(p)` and
 * `text.split(' ')`, with the positional tokens `args[1]` (the command word) and
 * `args[2]` (its argument).
 */
module Text {
  import opened Wrappers

  /** The in-band marker that turns a host's chat line into a command. */
  const CommandMarker: string := "!cmd"

  /** `s.startsWith(p)` */
  predicate StartsWith(s: string, p: string) {
    p <= s
  }

  /**
   * `s.split(' ')`: the pieces between single spaces, empty pieces included,
   * so that n spaces always give n + 1 pieces.
   */
  function Split(s: string): (parts: seq<string>)
    ensures |parts| >= 1
    ensures forall k :: 0 <= k < |parts| ==> ' ' !in parts[k]
  {
    if s == [] then [""]
    else
      var rest := Split(s[1..]);
      if s[0] == ' ' then [""] + rest
      else [[s[0]] + rest[0]] + rest[1..]
  }

  /** `parts.join(' ')`, the inverse of `Split`. */
  function Unsplit(parts: seq<string>): string
    requires |parts| >= 1
  {
    if |parts| == 1 then parts[0] else parts[0] + " " + Unsplit(parts[1..])
  }

  /** Joining the pieces of a split gives back the original text. */
  lemma {:induction false} UnsplitSplit(s: string)
    ensures Unsplit(Split(s)) == s
  {
    if s != [] {
      UnsplitSplit(s[1..]);
      var rest := Split(s[1..]);
      if s[0] == ' ' {
        assert Split(s) == [""] + rest;
        assert Unsplit(Split(s)) == "" + " " + Unsplit(rest);
        assert s == [s[0]] + s[1..];
      } else {
        assert Split(s) == [[s[0]] + rest[0]] + rest[1..];
        if |rest| == 1 {
          assert Unsplit(Split(s)) == [s[0]] + rest[0];
        } else {
          assert Unsplit(rest) == rest[0] + " " + Unsplit(rest[1..]);
          assert Unsplit(Split(s)) == [s[0]] + rest[0] + " " + Unsplit(rest[1..]);
        }
        assert s == [s[0]] + s[1..];
      }
    }
  }

  /** Splitting a space-free word in front of more text extends the first piece only. */
  lemma {:induction false} SplitWordPrefix(w: string, t: string)
    requires ' ' !in w
    ensures Split(w + t) == [w + Split(t)[0]] + Split(t)[1..]
  {
    if w != [] {
      SplitWordPrefix(w[1..], t);
      var st := Split(t);
      assert (w + t)[0] == w[0] && w[0] != ' ';
      assert (w + t)[1..] == w[1..] + t;
      var rest := Split(w[1..] + t);
      assert rest == [w[1..] + st[0]] + st[1..];
      assert Split(w + t) == [[w[0]] + rest[0]] + rest[1..];
      assert [w[0]] + (w[1..] + st[0]) == w + st[0];
    } else {
      var st := Split(t);
      assert w + t == t && w + st[0] == st[0];
      assert st == [st[0]] + st[1..];
    }
  }

  /** Splitting a join of space-free pieces gives back the pieces. */
  lemma {:induction false} SplitUnsplit(parts: seq<string>)
    requires |parts| >= 1
    requires forall k :: 0 <= k < |parts| ==> ' ' !in parts[k]
    ensures Split(Unsplit(parts)) == parts
  {
    if |parts| == 1 {
      SplitWordPrefix(parts[0], "");
      assert parts[0] + "" == parts[0];
    } else {
      var tail := Unsplit(parts[1..]);
      SplitUnsplit(parts[1..]);
      SplitWordPrefix(parts[0], " " + tail);
      assert (" " + tail)[0] == ' ' && (" " + tail)[1..] == tail;
      assert Split(" " + tail) == [""] + parts[1..];
      assert Unsplit(parts) == parts[0] + (" " + tail);
      assert parts[0] + "" == parts[0];
      assert parts == [parts[0]] + parts[1..];
    }
  }

  /** `args[1]` of `text.split(' ')`: the command word, undefined when there is none. */
  function CommandWord(text: string): Option<string> {
    var args := Split(text);
    if |args| > 1 then Some(args[1]) else None
  }

  /** `args[2]` of `text.split(' ')`: the command's target user, undefined when there is none. */
  function CommandArg(text: string): Option<string> {
    var args := Split(text);
    if |args| > 2 then Some(args[2]) else None
  }

  /**
   * The command word is the second space-separated token and the argument the
   * third: for `!cmd <word> <arg> ...` with space-free tokens they are read back.
   */
  lemma CommandTokens(first: string, word: string, rest: seq<string>)
    requires ' ' !in first && ' ' !in word
    requires forall k :: 0 <= k < |rest| ==> ' ' !in rest[k]
    ensures CommandWord(Unsplit([first, word] + rest)) == Some(word)
    ensures CommandArg(Unsplit([first, word] + rest)) == if rest == [] then None else Some(rest[0])
  {
    var parts := [first, word] + rest;
    forall k | 0 <= k < |parts| ensures ' ' !in parts[k] {
      if k >= 2 { assert parts[k] == rest[k - 2]; }
    }
    SplitUnsplit(parts);
  }
}
