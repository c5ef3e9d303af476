/** Normalisation before hashing: `content_hash` of src/store/hash.rs. */
module ContentHash {
  import opened Text

  // Lowercasing a character gives one or more characters, none of them white space, and
  // lowercasing again changes nothing.
  ghost predicate IsLowercasing(lower: char -> string) {
    forall c :: !IsSpace(c) ==> IsWord(lower(c)) && LowerAll(lower, lower(c)) == lower(c)
  }

  function LowerAll(lower: char -> string, s: string): string {
    if s == [] then [] else LowerAll(lower, s[..|s| - 1]) + lower(s[|s| - 1])
  }

  function LowerWords(lower: char -> string, ws: seq<string>): seq<string> {
    if ws == [] then []
    else LowerWords(lower, ws[..|ws| - 1]) + [LowerAll(lower, ws[|ws| - 1])]
  }

  // The normal form: the lowercased words with single spaces between them.
  function Normal(lower: char -> string, raw: string): string {
    Join(LowerWords(lower, Words(raw)))
  }

  lemma {:induction false} LowerKeepsWord(lower: char -> string, w: string)
    requires IsLowercasing(lower) && IsWord(w)
    ensures IsWord(LowerAll(lower, w))
  {
    var w', c := w[..|w| - 1], w[|w| - 1];
    assert IsWord(lower(c));
    if w' != [] {
      LowerKeepsWord(lower, w');
    } else {
      assert LowerAll(lower, w) == lower(c);
    }
  }

  lemma {:induction false} LowerAdds(lower: char -> string, s: string, t: string)
    ensures LowerAll(lower, s + t) == LowerAll(lower, s) + LowerAll(lower, t)
    decreases |t|
  {
    if t == [] {
      assert s + t == s;
    } else {
      assert (s + t)[..|s + t| - 1] == s + t[..|t| - 1];
      LowerAdds(lower, s, t[..|t| - 1]);
    }
  }

  lemma {:induction false} LowerTwice(lower: char -> string, w: string)
    requires IsLowercasing(lower) && (w == [] || IsWord(w))
    ensures LowerAll(lower, LowerAll(lower, w)) == LowerAll(lower, w)
  {
    if w != [] {
      var w', c := w[..|w| - 1], w[|w| - 1];
      LowerTwice(lower, w');
      LowerAdds(lower, LowerAll(lower, w'), lower(c));
    }
  }

  lemma {:induction false} LowerWordsAreWords(lower: char -> string, ws: seq<string>)
    requires IsLowercasing(lower) && AllWords(ws)
    ensures AllWords(LowerWords(lower, ws)) && |LowerWords(lower, ws)| == |ws|
  {
    if ws != [] {
      LowerWordsAreWords(lower, ws[..|ws| - 1]);
      LowerKeepsWord(lower, ws[|ws| - 1]);
    }
  }

  lemma {:induction false} LowerWordsTwice(lower: char -> string, ws: seq<string>)
    requires IsLowercasing(lower) && AllWords(ws)
    ensures LowerWords(lower, LowerWords(lower, ws)) == LowerWords(lower, ws)
  {
    if ws != [] {
      var init, w := ws[..|ws| - 1], ws[|ws| - 1];
      LowerWordsTwice(lower, init);
      LowerTwice(lower, w);
      LowerWordsSnoc(lower, LowerWords(lower, init), LowerAll(lower, w));
    }
  }

  lemma {:induction false} LowerWordsSnoc(lower: char -> string, ws: seq<string>, w: string)
    ensures LowerWords(lower, ws + [w]) == LowerWords(lower, ws) + [LowerAll(lower, w)]
  {
    assert (ws + [w])[..|ws|] == ws;
  }

  // Two texts have the same normal form exactly when their lowercased words agree.
  lemma {:induction false} NormalFormsAgree(lower: char -> string, a: string, b: string)
    requires IsLowercasing(lower)
    ensures Normal(lower, a) == Normal(lower, b) <==> LowerWords(lower, Words(a)) == LowerWords(lower, Words(b))
  {
    WordsAreWords(a);
    WordsAreWords(b);
    LowerWordsAreWords(lower, Words(a));
    LowerWordsAreWords(lower, Words(b));
    WordsOfJoin(LowerWords(lower, Words(a)));
    WordsOfJoin(LowerWords(lower, Words(b)));
  }

  // A normal form is its own normal form.
  lemma {:induction false} NormalIsIdempotent(lower: char -> string, raw: string)
    requires IsLowercasing(lower)
    ensures Normal(lower, Normal(lower, raw)) == Normal(lower, raw)
  {
    var ws := LowerWords(lower, Words(raw));
    WordsAreWords(raw);
    LowerWordsAreWords(lower, Words(raw));
    LowerWordsTwice(lower, Words(raw));
    WordsOfJoin(ws);
  }

  // What the loop has written after reading s: the normal form of s, and a pending space when s
  // has words and ends in white space.
  ghost function Written(lower: char -> string, s: string): string {
    Normal(lower, s) + if Words(s) != [] && !EndsInWord(s) then " " else ""
  }

  lemma {:induction false} JoinLast(ws: seq<string>, w: string, more: string)
    ensures Join(ws + [w + more]) == Join(ws + [w]) + more
  {
    assert (ws + [w])[..|ws|] == ws && (ws + [w + more])[..|ws|] == ws;
    if ws != [] {
      assert Join(ws) + " " + (w + more) == Join(ws) + " " + w + more;
    }
  }

  lemma {:induction false} JoinIsNonempty(ws: seq<string>)
    requires AllWords(ws)
    ensures Join(ws) == [] <==> ws == []
    ensures ws != [] ==> !IsSpace(Join(ws)[|Join(ws)| - 1])
  {
    if ws != [] {
      assert IsWord(ws[|ws| - 1]);
    }
  }

  lemma {:induction false} WriteSpace(lower: char -> string, s: string, c: char)
    requires IsLowercasing(lower) && IsSpace(c)
    ensures Written(lower, s + [c]) == Written(lower, s) + if EndsInWord(s) then " " else ""
  {
    WordsSnoc(s, c);
  }

  lemma {:induction false} WriteNewWord(lower: char -> string, s: string, c: char)
    requires IsLowercasing(lower) && !IsSpace(c) && !EndsInWord(s)
    ensures Written(lower, s + [c]) == Written(lower, s) + lower(c)
  {
    WordsSnoc(s, c);
    LowerWordsSnoc(lower, Words(s), [c]);
    assert LowerAll(lower, [c]) == lower(c) by { assert [c][..0] == []; }
    if Words(s) != [] {
      WordsAreWords(s);
      LowerWordsAreWords(lower, Words(s));
      JoinSnoc(LowerWords(lower, Words(s)), lower(c));
    }
  }

  lemma {:induction false} NormalOfLast(lower: char -> string, s: string, init: seq<string>, w: string)
    requires Words(s) == init + [w]
    ensures Normal(lower, s) == Join(LowerWords(lower, init) + [LowerAll(lower, w)])
  {
    LowerWordsSnoc(lower, init, w);
  }

  lemma {:induction false} ExtendLastWord(s: string, c: char) returns (init: seq<string>, w: string)
    requires !IsSpace(c) && EndsInWord(s)
    ensures Words(s) == init + [w] && Words(s + [c]) == init + [w + [c]]
  {
    var ws := Words(s);
    init, w := ws[..|ws| - 1], ws[|ws| - 1];
    assert ws == init + [w];
    WordsSnoc(s, c);
    GrowLast(init, w, c);
  }

  lemma {:induction false} LowerSnoc(lower: char -> string, w: string, c: char)
    ensures LowerAll(lower, w + [c]) == LowerAll(lower, w) + lower(c)
  {
    assert (w + [c])[..|w|] == w;
  }

  lemma {:induction false} WriteSameWord(lower: char -> string, s: string, c: char)
    requires IsLowercasing(lower) && !IsSpace(c) && EndsInWord(s)
    ensures Written(lower, s + [c]) == Written(lower, s) + lower(c)
  {
    var init, w := ExtendLastWord(s, c);
    NormalOfLast(lower, s, init, w);
    NormalOfLast(lower, s + [c], init, w + [c]);
    LowerSnoc(lower, w, c);
    JoinLast(LowerWords(lower, init), LowerAll(lower, w), lower(c));
    assert Normal(lower, s + [c]) == Normal(lower, s) + lower(c);
  }

  lemma {:induction false} NothingWritten(lower: char -> string, s: string)
    requires IsLowercasing(lower)
    ensures Written(lower, s) == [] <==> Words(s) == []
    ensures !EndsInWord(s) && Words(s) != [] ==> Written(lower, s)[|Written(lower, s)| - 1] == ' '
    ensures Normal(lower, s) != [] ==> Normal(lower, s)[|Normal(lower, s)| - 1] != ' '
  {
    WordsAreWords(s);
    LowerWordsAreWords(lower, Words(s));
    JoinIsNonempty(LowerWords(lower, Words(s)));
  }

  // What one more character adds, and how the loop's two tests read off what has been written.
  lemma {:induction false} WriteChar(lower: char -> string, s: string, c: char)
    requires IsLowercasing(lower)
    ensures Written(lower, s + [c]) ==
            Written(lower, s) + if !IsSpace(c) then lower(c) else if EndsInWord(s) then " " else ""
    ensures EndsInWord(s + [c]) <==> !IsSpace(c)
    ensures EndsInWord(s) ==> Written(lower, s) != []
  {
    NothingWritten(lower, s);
    if IsSpace(c) {
      WriteSpace(lower, s, c);
    } else if EndsInWord(s) {
      WriteSameWord(lower, s, c);
    } else {
      WriteNewWord(lower, s, c);
    }
  }

  // The same character but for case, or both white space.
  predicate SameButCase(lower: char -> string, c: char, d: char) {
    if IsSpace(c) then IsSpace(d) else !IsSpace(d) && lower(c) == lower(d)
  }

  lemma {:induction false} SameWritten(lower: char -> string, a: string, b: string)
    requires IsLowercasing(lower) && |a| == |b|
    requires forall i :: 0 <= i < |a| ==> SameButCase(lower, a[i], b[i])
    ensures Written(lower, a) == Written(lower, b) && (EndsInWord(a) <==> EndsInWord(b))
  {
    if a != [] {
      var n := |a| - 1;
      SameWritten(lower, a[..n], b[..n]);
      WriteChar(lower, a[..n], a[n]);
      WriteChar(lower, b[..n], b[n]);
      assert a == a[..n] + [a[n]] && b == b[..n] + [b[n]];
    }
  }

  // Neither case nor the kind of white space shows in the normal form.
  lemma {:induction false} CaseIsIgnored(lower: char -> string, a: string, b: string)
    requires IsLowercasing(lower) && |a| == |b|
    requires forall i :: 0 <= i < |a| ==> SameButCase(lower, a[i], b[i])
    ensures Normal(lower, a) == Normal(lower, b)
  {
    SameWritten(lower, a, b);
    NothingWritten(lower, a);
    NothingWritten(lower, b);
    assert Words(a) == [] <==> Words(b) == [];
    var n := |Normal(lower, a)|;
    assert Normal(lower, a) == Written(lower, a)[..n] && Normal(lower, b) == Written(lower, b)[..n];
  }

  method StripTrailing(s: string, ghost core: string) returns (out: string)
    requires s == core || s == core + " "
    requires core == [] || core[|core| - 1] != ' '
    ensures out == core
  {
    out := s;
    while out != [] && out[|out| - 1] == ' '
      invariant out == core || out == core + " "
      decreases |out|
    {
      out := out[..|out| - 1];
    }
  }

  // The character loop of `content_hash`, then the loop that strips trailing spaces.
  method Normalize(lower: char -> string, raw: string) returns (out: string)
    requires IsLowercasing(lower)
    ensures out == Normal(lower, raw)
  {
    out := [];
    var lastWasSpace := false;
    for i := 0 to |raw|
      invariant out == Written(lower, raw[..i])
      invariant lastWasSpace <==> i > 0 && !EndsInWord(raw[..i])
      invariant i == 0 ==> out == []
    {
      WriteChar(lower, raw[..i], raw[i]);
      assert raw[..i + 1] == raw[..i] + [raw[i]];
      if IsSpace(raw[i]) {
        if !lastWasSpace && out != [] {
          out := out + [' '];
        }
        lastWasSpace := true;
      } else {
        out := out + lower(raw[i]);
        lastWasSpace := false;
      }
    }
    assert raw[..|raw|] == raw;
    NothingWritten(lower, raw);
    out := StripTrailing(out, Normal(lower, raw));
  }
}
