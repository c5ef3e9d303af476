/** Splitting a text into overlapping chunks: `chunk_text` of src/knowledge/articles.rs. */
module Chunking {
  import opened Numbers
  import opened Text

  // Windows of `size` words, each starting `size - overlap` words after the one before, until a
  // window reaches the end.
  function Pieces(ws: seq<string>, size: nat, overlap: nat): (ps: seq<seq<string>>)
    requires overlap < size
    ensures ps != []
    decreases |ws|
  {
    if |ws| <= size then [ws] else [ws[..size]] + Pieces(ws[size - overlap..], size, overlap)
  }

  function JoinAll(ps: seq<seq<string>>): seq<string> {
    seq(|ps|, i requires 0 <= i < |ps| => Join(ps[i]))
  }

  // A text of at most `size` words is one chunk, left exactly as it is.  The step between chunks
  // must be positive only when there is more than one.
  function Chunks(text: string, size: nat, overlap: nat): seq<string>
    requires |Words(text)| > size ==> overlap < size
  {
    if |Words(text)| <= size then [text] else JoinAll(Pieces(Words(text), size, overlap))
  }

  lemma {:induction false} FirstWindow(ws: seq<string>, start: nat, size: nat, overlap: nat)
    requires overlap < size && start < |ws|
    ensures Pieces(ws[start..], size, overlap)[0] == ws[start..if start + size < |ws| then start + size else |ws|]
  {
    if start + size < |ws| {
      assert ws[start..][..size] == ws[start..start + size];
    }
  }

  method ChunkText(text: string, size: nat, overlap: nat) returns (chunks: seq<string>)
    requires |Words(text)| > size ==> overlap < size
    ensures chunks == Chunks(text, size, overlap)
    ensures |Words(text)| <= size ==> chunks == [text]
  {
    var words := Words(text);
    if |words| <= size {
      return [text];
    }
    ghost var pieces := Pieces(words, size, overlap);
    chunks := [];
    var start := 0;
    while start < |words|
      invariant start < |words| && |chunks| < |pieces|
      invariant chunks == JoinAll(pieces)[..|chunks|]
      invariant pieces[|chunks|..] == Pieces(words[start..], size, overlap)
      decreases |words| - start
    {
      var end := if start + size < |words| then start + size else |words|;
      FirstWindow(words, start, size, overlap);
      assert pieces[|chunks|] == pieces[|chunks|..][0];
      chunks := chunks + [Join(words[start..end])];
      if end >= |words| {
        assert chunks == JoinAll(pieces);
        break;
      }
      assert words[start..][size - overlap..] == words[start + (size - overlap)..];
      assert pieces[|chunks|..] == pieces[|chunks| - 1..][1..];
      start := start + (size - overlap);
    }
  }

  // ---- what the pieces are ----

  // The pieces after the first, each without its first `overlap` words.
  function Tails(ps: seq<seq<string>>, overlap: nat): seq<string> {
    if ps == [] then []
    else (if overlap <= |ps[0]| then ps[0][overlap..] else []) + Tails(ps[1..], overlap)
  }

  function Rebuilt(ps: seq<seq<string>>, overlap: nat): seq<string>
    requires ps != []
  {
    ps[0] + Tails(ps[1..], overlap)
  }

  // Dropping the overlaps gives the words back.
  lemma {:induction false} PiecesRebuild(ws: seq<string>, size: nat, overlap: nat)
    requires overlap < size
    ensures Rebuilt(Pieces(ws, size, overlap), overlap) == ws
    decreases |ws|
  {
    if |ws| > size {
      var rest := ws[size - overlap..];
      var ps := Pieces(rest, size, overlap);
      PiecesRebuild(rest, size, overlap);
      assert ([ws[..size]] + ps)[1..] == ps;
      assert overlap <= |ps[0]|;
      assert Tails(ps, overlap) == rest[overlap..];
      assert ws[..size] + rest[overlap..] == ws;
    } else {
      assert Tails([], overlap) == [] && [ws][1..] == [];
    }
  }

  ghost predicate Overlapping(ps: seq<seq<string>>, size: nat, overlap: nat, i: nat)
    requires overlap < size && i + 1 < |ps|
  {
    && |ps[i]| == size && overlap < |ps[i + 1]| <= size
    && ps[i][size - overlap..] == ps[i + 1][..overlap]
  }

  // Neighbouring pieces share exactly `overlap` words and the later one always has more.
  lemma {:induction false} PiecesOverlap(ws: seq<string>, size: nat, overlap: nat)
    requires overlap < size
    ensures var ps := Pieces(ws, size, overlap); forall i :: 0 <= i < |ps| - 1 ==> Overlapping(ps, size, overlap, i)
    decreases |ws|
  {
    if |ws| > size {
      var rest := ws[size - overlap..];
      var tail := Pieces(rest, size, overlap);
      var ps := [ws[..size]] + tail;
      PiecesOverlap(rest, size, overlap);
      FirstPiece(ws, size, overlap);
      forall i | 0 <= i < |ps| - 1 ensures Overlapping(ps, size, overlap, i) {
        if i > 0 {
          assert Overlapping(tail, size, overlap, i - 1);
        }
      }
    }
  }

  lemma {:induction false} FirstPiece(ws: seq<string>, size: nat, overlap: nat)
    requires overlap < size < |ws|
    ensures var next := Pieces(ws[size - overlap..], size, overlap)[0];
      overlap < |next| <= size && ws[..size][size - overlap..] == next[..overlap]
  {
    var rest := ws[size - overlap..];
    assert ws[..size][size - overlap..] == rest[..overlap];
    if |rest| > size {
      assert rest[..size][..overlap] == rest[..overlap];
    }
  }

  function CeilDiv(a: nat, b: nat): nat
    requires b > 0
  {
    (a + b - 1) / b
  }

  lemma {:induction false} PiecesCount(ws: seq<string>, size: nat, overlap: nat)
    requires overlap < size && overlap < |ws|
    ensures |Pieces(ws, size, overlap)| == CeilDiv(|ws| - overlap, size - overlap)
    decreases |ws|
  {
    var step := size - overlap;
    if |ws| > size {
      PiecesCount(ws[step..], size, overlap);
      OneMoreStep(|ws| - step - overlap + step - 1, step);
    } else {
      OneMoreStep(|ws| - overlap - 1, step);
    }
  }

  lemma {:induction false} PiecesAreWords(ws: seq<string>, size: nat, overlap: nat)
    requires overlap < size && AllWords(ws)
    ensures forall i :: 0 <= i < |Pieces(ws, size, overlap)| ==> AllWords(Pieces(ws, size, overlap)[i])
    decreases |ws|
  {
    if |ws| > size {
      PiecesAreWords(ws[size - overlap..], size, overlap);
    }
  }

  // ---- what the chunks are ----

  function SplitAll(chunks: seq<string>): seq<seq<string>> {
    seq(|chunks|, i requires 0 <= i < |chunks| => Words(chunks[i]))
  }

  // Splitting the chunks of a long text gives its pieces back.
  lemma {:induction false} ChunksSplitToPieces(text: string, size: nat, overlap: nat)
    requires overlap < size
    ensures SplitAll(Chunks(text, size, overlap)) == Pieces(Words(text), size, overlap)
  {
    var ws := Words(text);
    if |ws| > size {
      WordsAreWords(text);
      PiecesAreWords(ws, size, overlap);
      var ps := Pieces(ws, size, overlap);
      forall i | 0 <= i < |ps| ensures Words(Join(ps[i])) == ps[i] {
        WordsOfJoin(ps[i]);
      }
    }
  }

  // Chunking loses no word: the chunks' words, overlaps dropped, are the words of the text; there
  // are ceil((n - overlap) / (size - overlap)) chunks, neighbours share `overlap` words exactly,
  // and every chunk brings at least one word of its own.
  lemma {:induction false} ChunksCoverText(text: string, size: nat, overlap: nat)
    requires overlap < size < |Words(text)|
    ensures |Chunks(text, size, overlap)| == CeilDiv(|Words(text)| - overlap, size - overlap)
    ensures var split := SplitAll(Chunks(text, size, overlap));
      && split != [] && Rebuilt(split, overlap) == Words(text)
      && (forall i :: 0 <= i < |split| - 1 ==> Overlapping(split, size, overlap, i))
      && forall i :: 0 <= i < |split| ==> Chunks(text, size, overlap)[i] == Join(split[i])
  {
    var ws := Words(text);
    ChunksSplitToPieces(text, size, overlap);
    PiecesRebuild(ws, size, overlap);
    PiecesCount(ws, size, overlap);
    PiecesOverlap(ws, size, overlap);
    assert |Chunks(text, size, overlap)| == |Pieces(ws, size, overlap)|;
  }
}
