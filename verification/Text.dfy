/** Words and white space, as Rust's `split_whitespace`, `join` and `is_whitespace` see them. */
module Text {
  // The characters with Unicode's White_Space property.
  predicate IsSpace(c: char) {
    var n := c as int;
    || 9 <= n <= 13 || n == 0x20 || n == 0x85 || n == 0xA0 || n == 0x1680
    || 0x2000 <= n <= 0x200A || n == 0x2028 || n == 0x2029 || n == 0x202F || n == 0x205F || n == 0x3000
  }

  // A non-empty stretch without white space.
  ghost predicate IsWord(w: string) {
    w != [] && forall i :: 0 <= i < |w| ==> !IsSpace(w[i])
  }

  ghost predicate AllWords(ws: seq<string>) { forall i :: 0 <= i < |ws| ==> IsWord(ws[i]) }

  // The words so far, after one more character; `open` says whether it can extend the last word.
  function Grow(ws: seq<string>, open: bool, c: char): seq<string>
    requires open ==> ws != []
  {
    if IsSpace(c) then ws
    else if open then ws[..|ws| - 1] + [ws[|ws| - 1] + [c]]
    else ws + [[c]]
  }

  predicate EndsInWord(s: string) { s != [] && !IsSpace(s[|s| - 1]) }

  // The maximal stretches without white space, in order.
  function Words(s: string): (ws: seq<string>)
    ensures EndsInWord(s) ==> ws != []
  {
    if s == [] then []
    else
      var init := s[..|s| - 1];
      Grow(Words(init), EndsInWord(init), s[|s| - 1])
  }

  // The words with one space between neighbours.
  function Join(ws: seq<string>): string {
    if ws == [] then []
    else if |ws| == 1 then ws[0]
    else Join(ws[..|ws| - 1]) + " " + ws[|ws| - 1]
  }

  lemma {:induction false} WordsAreWords(s: string)
    ensures AllWords(Words(s))
  {
    if s != [] {
      WordsAreWords(s[..|s| - 1]);
    }
  }

  lemma {:induction false} WordsSnoc(s: string, c: char)
    ensures Words(s + [c]) == Grow(Words(s), EndsInWord(s), c)
  {
    assert (s + [c])[..|s|] == s;
  }

  // A word written after white space, or at the very beginning, becomes a word of its own.
  lemma {:induction false} AppendWord(s: string, w: string)
    requires IsWord(w) && !EndsInWord(s)
    ensures Words(s + w) == Words(s) + [w]
    decreases |w|
  {
    var w', c := w[..|w| - 1], w[|w| - 1];
    assert s + w == (s + w') + [c];
    WordsSnoc(s + w', c);
    if w' == [] {
      assert s + w' == s && w == [c];
    } else {
      AppendWord(s, w');
      GrowLast(Words(s), w', c);
      assert w == w' + [c];
    }
  }

  lemma {:induction false} GrowLast(ws: seq<string>, w: string, c: char)
    requires !IsSpace(c)
    ensures Grow(ws + [w], true, c) == ws + [w + [c]]
  {
  }

  lemma {:induction false} JoinSnoc(ws: seq<string>, w: string)
    requires ws != []
    ensures Join(ws + [w]) == Join(ws) + " " + w
  {
    assert (ws + [w])[..|ws|] == ws;
  }

  // Splitting undoes joining.
  lemma {:induction false} WordsOfJoin(ws: seq<string>)
    requires AllWords(ws)
    ensures Words(Join(ws)) == ws
  {
    if ws != [] {
      var init, w := ws[..|ws| - 1], ws[|ws| - 1];
      assert init + [w] == ws;
      WordsOfJoin(init);
      if init == [] {
        AppendWord([], w);
        assert [] + w == w == Join(ws);
      } else {
        JoinSnoc(init, w);
        WordsSnoc(Join(init), ' ');
        AppendWord(Join(init) + " ", w);
      }
    }
  }

  lemma {:induction false} GrowAfter(a: seq<string>, b: seq<string>, open: bool, c: char)
    requires open ==> b != []
    ensures Grow(a + b, open, c) == a + Grow(b, open, c)
  {
  }

  // The words of a text are those before any of its white space and those after.  With
  // `AppendWord` for a stretch without white space this fixes the words of every text.
  lemma {:induction false} WordsSplitAtSpace(s: string, c: char, t: string)
    requires IsSpace(c)
    ensures Words(s + [c] + t) == Words(s) + Words(t)
    ensures EndsInWord(s + [c] + t) <==> EndsInWord(t)
    decreases |t|
  {
    if t == [] {
      assert s + [c] + t == s + [c];
      WordsSnoc(s, c);
    } else {
      var init, last := t[..|t| - 1], t[|t| - 1];
      WordsSplitAtSpace(s, c, init);
      assert s + [c] + t == (s + [c] + init) + [last];
      WordsSnoc(s + [c] + init, last);
      GrowAfter(Words(s), Words(init), EndsInWord(init), last);
    }
  }
}
