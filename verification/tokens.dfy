/**
 * The tokenisation PlyRenderer applies to every header and ascii data line:
 * `Split` on the separators ' ' and '\n' (Assets/Scripts/PlyRenderer.cs line
 * 43), which keeps empty pieces, so a line always yields at least one token.
 */
module Tokens {

  predicate IsSeparator(c: char) {
    c == ' ' || c == '\n'
  }

  predicate NoSeparator(w: string) {
    forall i :: 0 <= i < |w| ==> !IsSeparator(w[i])
  }

  /** String.Split(m_separator): the pieces between separators, empty ones included. */
  function Split(s: string): (r: seq<string>)
    ensures |r| >= 1
    decreases |s|
  {
    if |s| == 0 then [""]
    else
      var rest := Split(s[1..]);
      if IsSeparator(s[0]) then [""] + rest
      else [[s[0]] + rest[0]] + rest[1..]
  }

  /** No piece Split produces contains a separator. */
  lemma {:induction false} SplitPiecesHaveNoSeparator(s: string)
    ensures forall i :: 0 <= i < |Split(s)| ==> NoSeparator(Split(s)[i])
    decreases |s|
  {
    if |s| > 0 {
      SplitPiecesHaveNoSeparator(s[1..]);
    }
  }

  /** Words joined by single spaces. */
  function Join(words: seq<string>): string
    requires |words| >= 1
  {
    if |words| == 1 then words[0] else words[0] + " " + Join(words[1..])
  }

  /** A word without separators runs into the first piece of whatever follows it. */
  lemma {:induction false} SplitPrefix(w: string, t: string)
    requires NoSeparator(w)
    ensures Split(w + t) == [w + Split(t)[0]] + Split(t)[1..]
    decreases |w|
  {
    if |w| > 0 {
      assert (w + t)[1..] == w[1..] + t;
      SplitPrefix(w[1..], t);
      assert [w[0]] + (w[1..] + Split(t)[0]) == w + Split(t)[0];
    } else {
      var r := Split(t);
      assert w + t == t;
      assert w + r[0] == r[0];
      assert r == [r[0]] + r[1..];
    }
  }

  /** Splitting words joined by spaces gives the words back. */
  lemma {:induction false} SplitJoin(words: seq<string>)
    requires |words| >= 1
    requires forall i :: 0 <= i < |words| ==> NoSeparator(words[i])
    ensures Split(Join(words)) == words
    decreases |words|
  {
    if |words| == 1 {
      SplitPrefix(words[0], "");
      assert words[0] + "" == words[0];
    } else {
      var tail := Join(words[1..]);
      SplitJoin(words[1..]);
      assert words[0] + " " + tail == words[0] + (" " + tail);
      SplitPrefix(words[0], " " + tail);
      assert (" " + tail)[1..] == tail;
      assert Split(" " + tail) == [""] + words[1..];
      assert words[0] + "" == words[0];
    }
  }

  /** On a line without '\n', joining the pieces by spaces rebuilds the line. */
  lemma {:induction false} JoinSplit(s: string)
    requires forall i :: 0 <= i < |s| ==> s[i] != '\n'
    ensures Join(Split(s)) == s
    decreases |s|
  {
    if |s| > 0 {
      var rest := Split(s[1..]);
      JoinSplit(s[1..]);
      if IsSeparator(s[0]) {
        assert Split(s)[1..] == rest;
      } else {
        JoinPrepend(s[0], Split(s), rest);
      }
    }
  }

  /** Putting a character before the first word puts it before the joined line. */
  lemma JoinPrepend(c: char, ws: seq<string>, words: seq<string>)
    requires |words| >= 1 && |ws| == |words|
    requires ws[0] == [c] + words[0] && ws[1..] == words[1..]
    ensures Join(ws) == [c] + Join(words)
  {
    if |words| > 1 {
      var tail := Join(words[1..]);
      assert Join(ws) == ws[0] + " " + tail;
      assert Join(words) == words[0] + " " + tail;
      assert ([c] + words[0]) + " " + tail == [c] + (words[0] + " " + tail);
    }
  }

  /** Three words separated by single spaces: the shape of the header lines after the first. */
  function Line3(a: string, b: string, c: string): string {
    a + " " + b + " " + c
  }

  /** A three-word line splits back into its words. */
  lemma Line3Tokens(a: string, b: string, c: string)
    requires NoSeparator(a) && NoSeparator(b) && NoSeparator(c)
    ensures Split(Line3(a, b, c)) == [a, b, c]
  {
    var w := [a, b, c];
    assert w[1..] == [b, c];
    assert w[1..][1..] == [c];
    assert Join([c]) == c;
    assert Join([b, c]) == b + " " + c;
    assert Join(w) == a + " " + Join([b, c]);
    assert Line3(a, b, c) == a + " " + (b + " " + c);
    SplitJoin(w);
  }

  /** A single word splits into itself. */
  lemma SplitWord(w: string)
    requires NoSeparator(w)
    ensures Split(w) == [w]
  {
    SplitPrefix(w, "");
    assert w + "" == w;
  }
}
