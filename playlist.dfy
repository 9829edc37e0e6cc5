/**
 * The playlist writer of `src/playlist.rs`: a named list of song paths, written either as a
 * plain playlist (one path per line) or as an extended one, where a header line is followed,
 * per song, by a block made from a fixed pattern whose placeholders are substituted in turn.
 * The song tags come from the tag readers, which are not modelled: they are a parameter
 * `meta` that gives each path its metadata.
 */
module PlaylistFormat {
  import opened Text
  import opened Paths
  import M3u

  /** The first line of an extended playlist. */
  const Header: string := "#EXTM3U"

  /** The placeholders of the song pattern. */
  const DurationTag: string := "<duration>"
  const ArtistTag: string := "<artist>"
  const TitleTag: string := "<title>"
  const PathTag: string := "<path>"

  /** The block written for each song: a newline, the directive line, a newline, the path. */
  const SongPattern: string := "\n" + "#EXTINF:" + DurationTag + "," + ArtistTag + " - " + TitleTag + "\n" + PathTag

  /** A song's tags: title, artist and duration in whole seconds (empty and 0 when unknown). */
  datatype SongMetadata = SongMetadata(title: string, artist: string, duration: nat)

  /** One song's block: the pattern with duration, artist, title and path substituted in that order. */
  function SongBlock(md: SongMetadata, path: string): string
  {
    var withDuration := Replace(SongPattern, DurationTag, Decimal(md.duration));
    var withArtist := Replace(withDuration, ArtistTag, md.artist);
    var withTitle := Replace(withArtist, TitleTag, md.title);
    Replace(withTitle, PathTag, path)
  }

  /**
   * The directive line of a song's block. Later substitutions also act on text inserted by
   * earlier ones: a `<title>` or `<path>` inside the artist and a `<path>` inside the title are
   * themselves replaced.
   */
  function InfLine(md: SongMetadata, path: string): string
  {
    "#EXTINF:" + Decimal(md.duration) + ","
      + Replace(Replace(md.artist, TitleTag, md.title), PathTag, path)
      + " - " + Replace(md.title, PathTag, path)
  }

  /*
   * Each substitution step is proved in two parts: a lemma on symbolic pieces (`...Slot`), in
   * which the replaced placeholder is framed by text that cannot take part in a match, and the
   * facts that the literal pieces of the pattern are such text, one small lemma each.
   */

  /** The text before a placeholder: it ends with `,` and has no `<`, as every placeholder starts with `<`. */
  predicate Lead(x: string)
  {
    |x| > 0 && x[|x| - 1] == ',' && '<' !in x
  }

  lemma LeadClear(x: string, pat: string)
    requires Lead(x) && '<' in pat && ',' !in pat
    ensures EndsOutside(x, pat) && !Occurs(x, pat)
  {
    MissingChar(x, pat, '<');
  }

  lemma SeparatorClear(pat: string)
    requires '<' in pat && ' ' !in pat
    ensures StartsOutside(" - ", pat) && EndsOutside(" - ", pat) && !Occurs(" - ", pat)
  {
    MissingChar(" - ", pat, '<');
  }

  lemma NewlineClear(pat: string)
    requires '<' in pat && '\n' !in pat
    ensures StartsOutside("\n", pat) && EndsOutside("\n", pat) && !Occurs("\n", pat)
  {
    MissingChar("\n", pat, '<');
  }

  lemma DurationLeadClear()
    ensures EndsOutside("#EXTINF:", DurationTag) && !Occurs("\n" + "#EXTINF:", DurationTag)
  {
    MissingChar("\n" + "#EXTINF:", DurationTag, '<');
  }

  lemma DurationRestClear()
    ensures StartsOutside(",", DurationTag)
    ensures !Occurs("," + ArtistTag + " - " + TitleTag + "\n" + PathTag, DurationTag)
  {
    MissingChar("," + ArtistTag + " - " + TitleTag + "\n" + PathTag, DurationTag, 'd');
  }

  lemma ArtistRestClear()
    ensures StartsOutside(" - ", ArtistTag) && !Occurs(" - " + TitleTag + "\n" + PathTag, ArtistTag)
  {
    MissingChar(" - " + TitleTag + "\n" + PathTag, ArtistTag, 'r');
  }

  lemma TitleRestClear()
    ensures StartsOutside("\n" + PathTag, TitleTag) && !Occurs("\n" + PathTag, TitleTag)
  {
    MissingChar("\n" + PathTag, TitleTag, 'i');
  }

  /** The duration step on pieces: the one placeholder is replaced and the text around it is kept. */
  lemma DurationSlot(x1: string, x2: string, pat: string, r1: string, r2: string, r3: string, r4: string,
                     r5: string, r6: string, rep: string)
    requires |pat| > 0 && EndsOutside(x2, pat) && !Occurs(x1 + x2, pat)
    requires StartsOutside(r1, pat) && !Occurs(r1 + r2 + r3 + r4 + r5 + r6, pat)
    ensures Replace(x1 + x2 + pat + r1 + r2 + r3 + r4 + r5 + r6, pat, rep)
         == x1 + x2 + rep + r1 + r2 + r3 + r4 + r5 + r6
  {
    var x, r := x1 + x2, r1 + r2 + r3 + r4 + r5 + r6;
    assert x1 + x2 + pat + r1 + r2 + r3 + r4 + r5 + r6 == x + pat + r;
    assert x1 + x2 + rep + r1 + r2 + r3 + r4 + r5 + r6 == x + rep + r;
    ReplaceOnce(x, pat, r, rep);
  }

  /** The duration is substituted into the bare pattern. */
  lemma DurationStep(d: string)
    ensures Replace(SongPattern, DurationTag, d)
         == "\n" + "#EXTINF:" + d + "," + ArtistTag + " - " + TitleTag + "\n" + PathTag
  {
    DurationLeadClear();
    DurationRestClear();
    DurationSlot("\n", "#EXTINF:", DurationTag, ",", ArtistTag, " - ", TitleTag, "\n", PathTag, d);
  }

  /** The artist step on pieces. */
  lemma ArtistSlot(x: string, pat: string, r1: string, r2: string, r3: string, r4: string, rep: string)
    requires |pat| > 0 && EndsOutside(x, pat) && !Occurs(x, pat)
    requires StartsOutside(r1, pat) && !Occurs(r1 + r2 + r3 + r4, pat)
    ensures Replace(x + pat + r1 + r2 + r3 + r4, pat, rep) == x + rep + r1 + r2 + r3 + r4
  {
    var r := r1 + r2 + r3 + r4;
    assert x + pat + r1 + r2 + r3 + r4 == x + pat + r;
    assert x + rep + r1 + r2 + r3 + r4 == x + rep + r;
    ReplaceOnce(x, pat, r, rep);
  }

  /** The artist is substituted after the lead `x`. */
  lemma ArtistStep(x: string, artist: string)
    requires Lead(x)
    ensures Replace(x + ArtistTag + " - " + TitleTag + "\n" + PathTag, ArtistTag, artist)
         == x + artist + " - " + TitleTag + "\n" + PathTag
  {
    LeadClear(x, ArtistTag);
    ArtistRestClear();
    ArtistSlot(x, ArtistTag, " - ", TitleTag, "\n", PathTag, artist);
  }

  /** The title step on pieces: replacing in `x + artist + sep + pat + r` acts on `artist` and `pat` only. */
  lemma TitleSlot(x: string, artist: string, sep: string, pat: string, r: string, title: string)
    requires |pat| > 0 && EndsOutside(x, pat) && !Occurs(x, pat)
    requires StartsOutside(sep, pat) && EndsOutside(sep, pat) && !Occurs(sep, pat)
    requires StartsOutside(r, pat) && !Occurs(r, pat)
    ensures Replace(x + artist + sep + pat + r, pat, title)
         == x + Replace(artist, pat, title) + sep + title + r
  {
    ReplaceSlot(x + artist + sep, pat, r, title);
    ReplaceConcat(x + artist, sep, pat, title);
    ReplaceConcat(x, artist, pat, title);
    ReplaceAbsent(r, pat, title);
    ReplaceAbsent(x, pat, title);
    ReplaceAbsent(sep, pat, title);
  }

  /** The title is substituted in the artist's text and at its own placeholder. */
  lemma TitleStep(x: string, artist: string, title: string)
    requires Lead(x)
    ensures Replace(x + artist + " - " + TitleTag + "\n" + PathTag, TitleTag, title)
         == x + Replace(artist, TitleTag, title) + " - " + title + "\n" + PathTag
  {
    LeadClear(x, TitleTag);
    SeparatorClear(TitleTag);
    TitleRestClear();
    TitleSlot(x, artist, " - ", TitleTag, "\n" + PathTag, title);
    Regroup6(x, artist, " - ", TitleTag, "\n", PathTag);
    Regroup6(x, Replace(artist, TitleTag, title), " - ", title, "\n", PathTag);
  }

  /** Regrouping of string concatenations used by `TitleStep`. */
  lemma Regroup6(a: string, b: string, c: string, d: string, e: string, f: string)
    ensures a + b + c + d + (e + f) == a + b + c + d + e + f
  {
  }

  /** The path step on pieces: replacing in `x + artist + sep + title + nl + pat` acts on `artist`, `title` and `pat`. */
  lemma PathSlot(x: string, artist: string, sep: string, title: string, nl: string, pat: string, path: string)
    requires |pat| > 0 && EndsOutside(x, pat) && !Occurs(x, pat)
    requires StartsOutside(sep, pat) && EndsOutside(sep, pat) && !Occurs(sep, pat)
    requires StartsOutside(nl, pat) && EndsOutside(nl, pat) && !Occurs(nl, pat)
    ensures Replace(x + artist + sep + title + nl + pat, pat, path)
         == x + Replace(artist, pat, path) + sep + Replace(title, pat, path) + nl + path
  {
    ReplaceSlot(x + artist + sep + title + nl, pat, [], path);
    ReplaceConcat(x + artist + sep + title, nl, pat, path);
    ReplaceConcat(x + artist + sep, title, pat, path);
    ReplaceConcat(x + artist, sep, pat, path);
    ReplaceConcat(x, artist, pat, path);
    ReplaceAbsent(x, pat, path);
    ReplaceAbsent(sep, pat, path);
    ReplaceAbsent(nl, pat, path);
    ReplaceAbsent([], pat, path);
    assert x + artist + sep + title + nl + pat == x + artist + sep + title + nl + pat + [];
  }

  /** The path is substituted in the artist's and the title's text and at its own placeholder. */
  lemma PathStep(x: string, artist: string, title: string, path: string)
    requires Lead(x)
    ensures Replace(x + artist + " - " + title + "\n" + PathTag, PathTag, path)
         == x + Replace(artist, PathTag, path) + " - " + Replace(title, PathTag, path) + "\n" + path
  {
    LeadClear(x, PathTag);
    SeparatorClear(PathTag);
    NewlineClear(PathTag);
    PathSlot(x, artist, " - ", title, "\n", PathTag, path);
  }

  /** Regrouping of string concatenations used by `SongBlockShape`. */
  lemma PrependRegroup(a: string, b: string, c: string, d: string, e: string, f: string, g: string, h: string, k: string)
    ensures a + (b + c + d + e + f + g) + h + k == a + b + c + d + e + f + g + h + k
  {
  }

  /** Regrouping of string concatenations used by `SongBlockShape`. */
  lemma LeadRegroup(a: string, b: string, c: string, d: string, e: string, f: string, g: string, h: string, k: string)
    ensures a + b + c + d + e + f + g + h + k == (a + b + c + d) + e + f + g + h + k
  {
  }

  /** A song's block is a newline, its directive line, a newline and its path. */
  lemma SongBlockShape(md: SongMetadata, path: string)
    ensures SongBlock(md, path) == "\n" + InfLine(md, path) + "\n" + path
  {
    var d := Decimal(md.duration);
    var x := "\n" + "#EXTINF:" + d + ",";
    assert Lead(x) by {
      assert forall i :: 0 <= i < |d| ==> d[i] != '<';
    }
    var artist2 := Replace(md.artist, TitleTag, md.title);
    DurationStep(d);
    LeadRegroup("\n", "#EXTINF:", d, ",", ArtistTag, " - ", TitleTag, "\n", PathTag);
    ArtistStep(x, md.artist);
    TitleStep(x, md.artist, md.title);
    PathStep(x, artist2, md.title, path);
    PrependRegroup("\n", "#EXTINF:", d, ",", Replace(artist2, PathTag, path), " - ", Replace(md.title, PathTag, path), "\n", path);
  }

  /**
   * Without placeholders in the tags, the directive line is `#EXTINF:` followed by the decimal
   * duration, a comma, the artist, ` - ` and the title.
   */
  lemma SongBlockPlain(md: SongMetadata, path: string)
    requires !Occurs(md.artist, TitleTag) && !Occurs(md.artist, PathTag) && !Occurs(md.title, PathTag)
    ensures SongBlock(md, path)
         == "\n" + ("#EXTINF:" + Decimal(md.duration) + "," + md.artist + " - " + md.title) + "\n" + path
  {
    SongBlockShape(md, path);
    ReplaceAbsent(md.artist, TitleTag, md.title);
    ReplaceAbsent(md.artist, PathTag, path);
    ReplaceAbsent(md.title, PathTag, path);
  }

  /** An artist that is exactly `<title>` is written as the title. */
  lemma ArtistTitleQuirk(md: SongMetadata, path: string)
    requires md.artist == TitleTag && !Occurs(md.title, PathTag)
    ensures InfLine(md, path) == "#EXTINF:" + Decimal(md.duration) + "," + md.title + " - " + md.title
  {
    ReplaceWhole(TitleTag, md.title);
    ReplaceAbsent(md.title, PathTag, path);
  }

  /** A title that is exactly `<path>` is written as the song's path. */
  lemma TitlePathQuirk(md: SongMetadata, path: string)
    requires md.title == PathTag && !Occurs(md.artist, TitleTag) && !Occurs(md.artist, PathTag)
    ensures InfLine(md, path) == "#EXTINF:" + Decimal(md.duration) + "," + md.artist + " - " + path
  {
    ReplaceWhole(PathTag, path);
    ReplaceAbsent(md.artist, TitleTag, md.title);
    ReplaceAbsent(md.artist, PathTag, path);
  }

  /** The blocks of the songs, in order. */
  function Blocks(songs: seq<Path>, meta: Path -> SongMetadata): string
  {
    if songs == [] then ""
    else
      var s := songs[|songs| - 1];
      Blocks(songs[..|songs| - 1], meta) + SongBlock(meta(s), Render(s))
  }

  /** The extended playlist text: the header, then one block per song. */
  function ExtText(songs: seq<Path>, meta: Path -> SongMetadata): string
  {
    Header + Blocks(songs, meta)
  }

  /** Appending a song appends its block: the step of the writer loop. */
  lemma ExtTextSnoc(songs: seq<Path>, song: Path, meta: Path -> SongMetadata)
    ensures ExtText(songs + [song], meta) == ExtText(songs, meta) + SongBlock(meta(song), Render(song))
  {
    assert (songs + [song])[..|songs|] == songs;
  }

  /** `Playlist` of `src/playlist.rs`: `Playlist::new` stores the name and the songs as given. */
  datatype Playlist = Playlist(name: string, songs: seq<Path>)
  {
    /** `to_m3u`: every song's path followed by a newline, in order. */
    method ToM3u() returns (content: string)
      ensures content == M3u.PlainText(songs)
    {
      content := "";
      for i := 0 to |songs|
        invariant content == M3u.PlainText(songs[..i])
      {
        M3u.PlainTextSnoc(songs[..i], songs[i]);
        assert songs[..i + 1] == songs[..i] + [songs[i]];
        content := content + Render(songs[i]);
        content := content + "\n";
      }
      assert songs[..|songs|] == songs;
    }

    /** `to_extm3u`: the header, then each song's block, with the song's tags from `meta`. */
    method ToExtm3u(meta: Path -> SongMetadata) returns (content: string)
      ensures content == ExtText(songs, meta)
    {
      content := Header;
      for i := 0 to |songs|
        invariant content == ExtText(songs[..i], meta)
      {
        ExtTextSnoc(songs[..i], songs[i], meta);
        assert songs[..i + 1] == songs[..i] + [songs[i]];
        var songMetadata := meta(songs[i]);
        var song := SongBlock(songMetadata, Render(songs[i]));
        content := content + song;
      }
      assert songs[..|songs|] == songs;
    }
  }

  /** The extended text starts with the header, and is the header alone exactly when there are no songs. */
  lemma {:induction false} ExtTextHeader(songs: seq<Path>, meta: Path -> SongMetadata)
    ensures StartsWith(ExtText(songs, meta), Header)
    ensures ExtText(songs, meta) == Header <==> songs == []
  {
    if songs != [] {
      var s := songs[|songs| - 1];
      SongBlockShape(meta(s), Render(s));
      assert |Blocks(songs, meta)| > 0;
    }
  }

  /** The lines of the extended text: the header, then each song's directive line and path. */
  function ExtLines(songs: seq<Path>, meta: Path -> SongMetadata): (lines: seq<string>)
    ensures |lines| == 1 + 2 * |songs|
  {
    if songs == [] then [Header]
    else
      var s := songs[|songs| - 1];
      ExtLines(songs[..|songs| - 1], meta) + [InfLine(meta(s), Render(s)), Render(s)]
  }

  lemma {:induction false} ExtLinesAt(songs: seq<Path>, meta: Path -> SongMetadata)
    ensures ExtLines(songs, meta)[0] == Header
    ensures forall i :: 0 <= i < |songs| ==>
              ExtLines(songs, meta)[1 + 2 * i] == InfLine(meta(songs[i]), Render(songs[i]))
              && ExtLines(songs, meta)[2 + 2 * i] == Render(songs[i])
  {
    ExtLinesHead(songs, meta);
    forall i | 0 <= i < |songs| {
      ExtLinesAtIndex(songs, meta, i);
    }
  }

  lemma {:induction false} ExtLinesHead(songs: seq<Path>, meta: Path -> SongMetadata)
    ensures ExtLines(songs, meta)[0] == Header
  {
    if songs != [] {
      ExtLinesHead(songs[..|songs| - 1], meta);
    }
  }

  lemma {:induction false} ExtLinesAtIndex(songs: seq<Path>, meta: Path -> SongMetadata, i: nat)
    requires i < |songs|
    ensures ExtLines(songs, meta)[1 + 2 * i] == InfLine(meta(songs[i]), Render(songs[i]))
    ensures ExtLines(songs, meta)[2 + 2 * i] == Render(songs[i])
  {
    var front := songs[..|songs| - 1];
    if i < |front| {
      ExtLinesAtIndex(front, meta, i);
      assert songs[i] == front[i];
    }
  }

  /** The extended text is its lines joined by newlines. */
  lemma {:induction false} ExtTextIsJoin(songs: seq<Path>, meta: Path -> SongMetadata)
    ensures ExtText(songs, meta) == Join(ExtLines(songs, meta), '\n')
  {
    if songs != [] {
      var front, s := songs[..|songs| - 1], songs[|songs| - 1];
      var inf, p := InfLine(meta(s), Render(s)), Render(s);
      var lines := ExtLines(front, meta);
      ExtTextIsJoin(front, meta);
      assert ExtText(songs, meta) == ExtText(front, meta) + SongBlock(meta(s), p);
      SongBlockShape(meta(s), p);
      JoinSnoc(lines, inf, '\n');
      JoinSnoc(lines + [inf], p, '\n');
      assert ExtLines(songs, meta) == lines + [inf] + [p];
      AppendBlock(Join(lines, '\n'), inf, p);
    }
  }

  lemma AppendBlock(t: string, inf: string, p: string)
    ensures t + ("\n" + inf + "\n" + p) == t + ['\n'] + inf + ['\n'] + p
  {
  }

  /** No tag of any song contains a newline. */
  predicate TagsNewlineFree(songs: seq<Path>, meta: Path -> SongMetadata)
  {
    forall i :: 0 <= i < |songs| ==> '\n' !in meta(songs[i]).artist && '\n' !in meta(songs[i]).title
  }

  lemma InfLineNewlineFree(md: SongMetadata, path: string)
    requires '\n' !in md.artist && '\n' !in md.title && '\n' !in path
    ensures '\n' !in InfLine(md, path)
  {
    var d := Decimal(md.duration);
    assert '\n' !in d by { assert forall i :: 0 <= i < |d| ==> d[i] != '\n'; }
    ReplaceKeepsOut(md.artist, TitleTag, md.title, '\n');
    ReplaceKeepsOut(Replace(md.artist, TitleTag, md.title), PathTag, path, '\n');
    ReplaceKeepsOut(md.title, PathTag, path, '\n');
  }

  /**
   * With newline-free paths and tags, the extended text of n songs splits on `'\n'` into 1 + 2n
   * lines: the header, then for each song in order its `#EXTINF:` line and its path.
   */
  lemma ExtTextSplit(songs: seq<Path>, meta: Path -> SongMetadata)
    requires M3u.ComponentsLack(songs, '\n') && TagsNewlineFree(songs, meta)
    ensures var lines := Split(ExtText(songs, meta), '\n');
      && |lines| == 1 + 2 * |songs|
      && lines[0] == Header
      && forall i :: 0 <= i < |songs| ==>
           && lines[1 + 2 * i] == InfLine(meta(songs[i]), Render(songs[i]))
           && StartsWith(lines[1 + 2 * i], "#EXTINF:")
           && lines[2 + 2 * i] == Render(songs[i])
  {
    var lines := ExtLines(songs, meta);
    ExtLinesAt(songs, meta);
    ExtLinesNewlineFree(songs, meta);
    ExtTextIsJoin(songs, meta);
    SplitJoin(lines, '\n');
    forall i | 0 <= i < |songs| ensures StartsWith(lines[1 + 2 * i], "#EXTINF:") {
      InfLineStart(meta(songs[i]), Render(songs[i]));
    }
  }

  lemma InfLineStart(md: SongMetadata, path: string)
    ensures StartsWith(InfLine(md, path), "#EXTINF:")
  {
    var inf := InfLine(md, path);
    assert inf[..8] == "#EXTINF:";
  }

  /** Under the same conditions, no line of the extended text holds a newline. */
  lemma ExtLinesNewlineFree(songs: seq<Path>, meta: Path -> SongMetadata)
    requires M3u.ComponentsLack(songs, '\n') && TagsNewlineFree(songs, meta)
    ensures forall j :: 0 <= j < |ExtLines(songs, meta)| ==> '\n' !in ExtLines(songs, meta)[j]
  {
    forall j | 0 <= j < |ExtLines(songs, meta)| {
      ExtLineNewlineFree(songs, meta, j);
    }
  }

  lemma ExtLineNewlineFree(songs: seq<Path>, meta: Path -> SongMetadata, j: nat)
    requires M3u.ComponentsLack(songs, '\n') && TagsNewlineFree(songs, meta)
    requires j < |ExtLines(songs, meta)|
    ensures '\n' !in ExtLines(songs, meta)[j]
  {
    if j == 0 {
      ExtLinesHead(songs, meta);
    } else {
      var i := (j - 1) / 2;
      ExtLinesAtIndex(songs, meta, i);
      SongLinesNewlineFree(songs, meta, i);
      if j % 2 == 0 {
        assert j == 2 + 2 * i;
      }
    }
  }

  lemma SongLinesNewlineFree(songs: seq<Path>, meta: Path -> SongMetadata, i: nat)
    requires M3u.ComponentsLack(songs, '\n') && TagsNewlineFree(songs, meta)
    requires i < |songs|
    ensures '\n' !in Render(songs[i]) && '\n' !in InfLine(meta(songs[i]), Render(songs[i]))
  {
    var s := songs[i];
    assert forall k :: 0 <= k < |s| ==> '\n' !in s[k];
    RenderLacksChar(s, '\n');
    InfLineNewlineFree(meta(s), Render(s));
  }
}
