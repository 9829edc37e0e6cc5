/**
 * The plain playlist text written by both versions of the tool (`Playlist::contents` in
 * `src/main.rs`, `Playlist::to_m3u` in `src/playlist.rs`): each song's path on a line of its
 * own, every line ended by `'\n'`, no header.
 */
module M3u {
  import opened Text
  import opened Paths

  /** The rendered paths of the songs, in order. */
  function RenderAll(songs: seq<Path>): (texts: seq<string>)
    ensures |texts| == |songs|
  {
    seq(|songs|, i requires 0 <= i < |songs| => Render(songs[i]))
  }

  /** The plain playlist text of `songs`. */
  function PlainText(songs: seq<Path>): string
  {
    Terminated(RenderAll(songs))
  }

  /** Appending a song appends its path and one newline: the step of the writer loops. */
  lemma PlainTextSnoc(songs: seq<Path>, song: Path)
    ensures PlainText(songs + [song]) == PlainText(songs) + Render(song) + "\n"
  {
    RenderAllSnoc(songs, song);
  }

  lemma RenderAllSnoc(songs: seq<Path>, song: Path)
    ensures RenderAll(songs + [song]) == RenderAll(songs) + [Render(song)]
  {
  }

  /** The text is empty exactly when there are no songs: every song writes at least its newline. */
  lemma {:induction false} PlainTextEmpty(songs: seq<Path>)
    ensures PlainText(songs) == "" <==> songs == []
  {
    if songs != [] {
      var front := songs[..|songs| - 1];
      assert songs == front + [songs[|songs| - 1]];
      PlainTextSnoc(front, songs[|songs| - 1]);
    }
  }

  /** Each song contributes its path's length plus one newline. */
  function SongsLength(songs: seq<Path>): nat
  {
    if songs == [] then 0 else SongsLength(songs[..|songs| - 1]) + |Render(songs[|songs| - 1])| + 1
  }

  lemma {:induction false} PlainTextLength(songs: seq<Path>)
    ensures |PlainText(songs)| == SongsLength(songs)
  {
    if songs != [] {
      var front := songs[..|songs| - 1];
      assert songs == front + [songs[|songs| - 1]];
      PlainTextSnoc(front, songs[|songs| - 1]);
      PlainTextLength(front);
    }
  }

  /** No component holds `c` (which is not the separator), so no rendered path does. */
  predicate ComponentsLack(songs: seq<Path>, c: char)
  {
    forall i, j :: 0 <= i < |songs| && 0 <= j < |songs[i]| ==> c !in songs[i][j]
  }

  lemma RenderAllLacks(songs: seq<Path>, c: char)
    requires c != '/' && ComponentsLack(songs, c)
    ensures forall i :: 0 <= i < |songs| ==> c !in RenderAll(songs)[i]
  {
    forall i | 0 <= i < |songs| ensures c !in RenderAll(songs)[i] {
      RenderLacksChar(songs[i], c);
    }
  }

  /** Splitting the text on `'\n'` gives the songs' paths and one trailing empty string. */
  lemma PlainTextSplit(songs: seq<Path>)
    requires ComponentsLack(songs, '\n')
    ensures Split(PlainText(songs), '\n') == RenderAll(songs) + [""]
  {
    RenderAllLacks(songs, '\n');
    SplitTerminated(RenderAll(songs));
  }

  /** Reading the text back with `str::lines` gives exactly the songs' paths. */
  lemma PlainTextLines(songs: seq<Path>)
    requires ComponentsLack(songs, '\n') && ComponentsLack(songs, '\r')
    ensures Lines(PlainText(songs)) == RenderAll(songs)
  {
    RenderAllLacks(songs, '\n');
    RenderAllLacks(songs, '\r');
    var texts := RenderAll(songs);
    forall i | 0 <= i < |texts| ensures StripCr(texts[i]) == texts[i] {
      assert '\r' !in texts[i];
    }
    LinesOfTerminated(texts);
  }
}
