/** Cutting a line at a separator character and gluing tokens back together:
    the behaviour of .NET's String.Split(char) (no options) and of writing
    fields with a separator between them. */
module Text {

  /** The tokens with `sep` between each pair of neighbours. */
  function Join(tokens: seq<string>, sep: char): string
  {
    if |tokens| == 0 then ""
    else if |tokens| == 1 then tokens[0]
    else tokens[0] + [sep] + Join(tokens[1..], sep)
  }

  /** `s` cut at every occurrence of `sep`. Empty tokens are kept, so "" gives
      one empty token and ";;" gives three: one token more than there are
      separators, none of them holding the separator, and joining them gives
      back `s`. */
  function Split(s: string, sep: char): (tokens: seq<string>)
    ensures |tokens| == multiset(s)[sep] + 1
    ensures forall k :: 0 <= k < |tokens| ==> sep !in tokens[k]
  {
    if s == [] then [""]
    else
      var rest := Split(s[1..], sep);
      assert s == [s[0]] + s[1..];
      if s[0] == sep then [""] + rest
      else
        [[s[0]] + rest[0]] + rest[1..]
  }

  /** Joining the tokens of a split gives the original string back. */
  lemma {:induction false} SplitRejoins(s: string, sep: char)
    ensures Join(Split(s, sep), sep) == s
  {
    if s != [] {
      var rest := Split(s[1..], sep);
      SplitRejoins(s[1..], sep);
      assert s == [s[0]] + s[1..];
      if s[0] == sep {
        assert ([""] + rest)[1..] == rest;
      } else {
        assert rest == [rest[0]] + rest[1..];
        JoinFirstChar(s[0], rest[0], rest[1..], sep);
      }
    }
  }

  /** A first token that starts with a character `c` joins to `c` followed by
      the join with `c` removed. */
  lemma {:induction false} JoinFirstChar(c: char, w: string, tail: seq<string>, sep: char)
    ensures Join([[c] + w] + tail, sep) == [c] + Join([w] + tail, sep)
  {
    var tokens := [[c] + w] + tail;
    assert tokens[1..] == tail && ([w] + tail)[1..] == tail;
  }

  /** Splitting joined tokens gives the tokens back when none holds the separator. */
  lemma {:induction false} SplitJoin(tokens: seq<string>, sep: char)
    requires |tokens| >= 1
    requires forall k :: 0 <= k < |tokens| ==> sep !in tokens[k]
    ensures Split(Join(tokens, sep), sep) == tokens
    decreases |Join(tokens, sep)|
  {
    var head, tail := tokens[0], tokens[1..];
    assert tokens == [head] + tail;
    if head == [] {
      if |tokens| > 1 {
        var joined := Join(tail, sep);
        assert Join(tokens, sep) == [sep] + joined;
        assert ([sep] + joined)[1..] == joined;
        SplitJoin(tail, sep);
      }
    } else {
      var c, w := head[0], head[1..];
      assert head == [c] + w;
      assert c != sep by { assert c in head; }
      var shorter := [w] + tail;
      assert sep !in w by { assert forall x :: x in w ==> x in head; }
      assert forall k :: 1 <= k < |shorter| ==> shorter[k] == tokens[k];
      JoinFirstChar(c, w, tail, sep);
      var joined := Join(shorter, sep);
      assert ([c] + joined)[1..] == joined;
      SplitJoin(shorter, sep);
    }
  }
}
