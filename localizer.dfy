/**
 * The relocation pipeline of `src/main.rs`: the names a playlist refers to are read from its
 * lines, each name is looked up in the index of local files by a first-hit scan, and the
 * hits are collected, in order, into a new playlist written one path per line. The index
 * is an input here; walking the music directory to build it is not modelled.
 */
module Localizer {
  import opened Options
  import opened Seqs
  import opened Text
  import opened Paths
  import M3u

  /** A playlist under assembly: `add` pushes a song, `contents` renders the plain text. */
  class Playlist {
    var name: string
    var songs: seq<Path>

    /** `Playlist::new`: the given name and no songs. */
    constructor (name: string)
      ensures this.name == name && songs == []
    {
      this.name := name;
      songs := [];
    }

    /** `Playlist::add`: exactly one song more, at the end; the name is unchanged. */
    method Add(song: Path)
      modifies this
      ensures name == old(name) && songs == old(songs) + [song]
    {
      songs := songs + [song];
    }

    /** `Playlist::contents`: every song's path followed by a newline, in order. */
    method Contents() returns (content: string)
      ensures content == M3u.PlainText(songs)
    {
      content := "";
      for i := 0 to |songs|
        invariant content == M3u.PlainText(songs[..i])
      {
        M3u.PlainTextSnoc(songs[..i], songs[i]);
        assert songs[..i + 1] == songs[..i] + [songs[i]];
        content := content + Render(songs[i]) + "\n";
      }
      assert songs[..|songs|] == songs;
    }
  }

  /** Position of the first index entry ending with `name`, or `|index|` when none does. */
  function FirstMatchAt(index: seq<Path>, name: string): (k: nat)
    ensures k <= |index|
    ensures k < |index| ==> EndsWith(index[k], name)
    ensures forall j :: 0 <= j < k ==> !EndsWith(index[j], name)
  {
    if index == [] then 0
    else if EndsWith(index[0], name) then 0
    else
      var k := 1 + FirstMatchAt(index[1..], name);
      assert forall j :: 1 <= j < k ==> index[j] == index[1..][j - 1];
      k
  }

  /** The entry `match_file` returns for `name`. */
  function FirstMatch(index: seq<Path>, name: string): Option<Path>
  {
    var k := FirstMatchAt(index, name);
    if k < |index| then Some(index[k]) else None
  }

  /**
   * What `match_file` promises: a result is an index entry ending with the name, no earlier
   * entry ends with it, and there is no result exactly when no entry ends with it.
   */
  lemma FirstMatchSpec(index: seq<Path>, name: string)
    ensures FirstMatch(index, name).None? <==> forall j :: 0 <= j < |index| ==> !EndsWith(index[j], name)
    ensures FirstMatch(index, name).Some? ==>
              exists k :: 0 <= k < |index| && index[k] == FirstMatch(index, name).value
                && EndsWith(index[k], name) && forall j :: 0 <= j < k ==> !EndsWith(index[j], name)
  {
    var k := FirstMatchAt(index, name);
    if k < |index| {
      assert index[k] == FirstMatch(index, name).value;
    }
  }

  /** `match_file`: scans the index in order and returns the first entry ending with `fileName`. */
  method MatchFile(index: seq<Path>, fileName: string) returns (r: Option<Path>)
    requires IsFileName(fileName)
    ensures r == FirstMatch(index, fileName)
  {
    for i := 0 to |index|
      invariant forall j :: 0 <= j < i ==> !EndsWith(index[j], fileName)
    {
      if EndsWith(index[i], fileName) {
        return Some(index[i]);
      }
    }
    return None;
  }

  /** Keeps the paths whose extension is `ext`. */
  function HasExtension(ext: string): Path -> Option<Path>
  {
    p => if Extension(p) == Some(ext) then Some(p) else None
  }

  /** The entries `match_file_extension` returns. */
  function WithExtension(index: seq<Path>, ext: string): seq<Path>
  {
    FilterMap(index, HasExtension(ext))
  }

  /** `match_file_extension`: pushes each index entry whose extension is `extension`. */
  method MatchFileExtension(index: seq<Path>, extension: string) returns (results: seq<Path>)
    ensures results == WithExtension(index, extension)
  {
    results := [];
    for i := 0 to |index|
      invariant results == WithExtension(index[..i], extension)
    {
      FilterMapSnoc(index[..i], index[i], HasExtension(extension));
      assert index[..i + 1] == index[..i] + [index[i]];
      if Extension(index[i]) == Some(extension) {
        results := results + [index[i]];
      }
    }
    assert index[..|index|] == index;
  }

  /**
   * The result of `match_file_extension` is the subsequence of the index at the positions whose
   * extension is `ext`, in index order; an entry without an extension is never among them.
   */
  lemma WithExtensionExact(index: seq<Path>, ext: string)
    ensures var pos := Positions(index, HasExtension(ext));
      && |WithExtension(index, ext)| == |pos|
      && Increasing(pos)
      && (forall k :: 0 <= k < |pos| ==> pos[k] < |index| && WithExtension(index, ext)[k] == index[pos[k]])
      && (forall j :: 0 <= j < |index| ==> (j in pos <==> Extension(index[j]) == Some(ext)))
    ensures forall p :: p in WithExtension(index, ext) <==> p in index && Extension(p) == Some(ext)
  {
    var f, out := HasExtension(ext), WithExtension(index, ext);
    var pos := Positions(index, f);
    FilterMapPositions(index, f);
    forall p ensures p in out <==> p in index && Extension(p) == Some(ext) {
      if p in out {
        var k :| 0 <= k < |out| && out[k] == p;
        assert f(index[pos[k]]) == Some(p);
      }
      if p in index && Extension(p) == Some(ext) {
        var j :| 0 <= j < |index| && index[j] == p;
        assert f(index[j]).Some?;
        var k :| 0 <= k < |pos| && pos[k] == j;
        assert out[k] == p;
      }
    }
  }

  /** Extended-format directive lines start with `#EXT` and refer to no file. */
  predicate IsDirective(line: string)
  {
    StartsWith(line, "#EXT")
  }

  /** The name a playlist line refers to: the file name of any line that is not a directive. */
  function LineReference(line: string): Option<string>
  {
    if IsDirective(line) then None else FileNameOf(line)
  }

  /** Every non-directive line has a file name (otherwise `unwrap` panics). */
  predicate NamesPresent(lines: seq<string>)
  {
    forall i :: 0 <= i < |lines| ==> IsDirective(lines[i]) || FileNameOf(lines[i]).Some?
  }

  /** The names `file_names_m3u` returns: none when reading failed (`contents` is `None`). */
  function ReferenceNames(contents: Option<string>): seq<string>
  {
    match contents
    case None => []
    case Some(text) => FilterMap(Lines(text), LineReference)
  }

  /**
   * `file_names_m3u`, after the file was opened: `contents` is the text read, or `None` when
   * reading it failed. Each line that is not a directive contributes its file name.
   */
  method FileNamesM3u(contents: Option<string>) returns (results: seq<string>)
    requires contents.Some? ==> NamesPresent(Lines(contents.value))
    ensures results == ReferenceNames(contents)
  {
    results := [];
    if contents.None? {
      return;
    }
    var lines := Lines(contents.value);
    for i := 0 to |lines|
      invariant results == FilterMap(lines[..i], LineReference)
    {
      FilterMapSnoc(lines[..i], lines[i], LineReference);
      assert lines[..i + 1] == lines[..i] + [lines[i]];
      var l := lines[i];
      if !IsDirective(l) {
        var name := FileNameOf(l);
        results := results + [name.value];
      }
    }
    assert lines[..|lines|] == lines;
  }

  /**
   * One name per line that is not a directive, in line order, each the file name of its line,
   * and every name a proper file name.
   */
  lemma ReferenceNamesSpec(lines: seq<string>)
    requires NamesPresent(lines)
    ensures var names, pos := FilterMap(lines, LineReference), Positions(lines, LineReference);
      && |names| == |pos|
      && Increasing(pos)
      && (forall k :: 0 <= k < |pos| ==> pos[k] < |lines| && Some(names[k]) == FileNameOf(lines[pos[k]]))
      && (forall j :: 0 <= j < |lines| ==> (j in pos <==> !IsDirective(lines[j])))
      && (forall k :: 0 <= k < |names| ==> IsFileName(names[k]))
  {
    FilterMapPositions(lines, LineReference);
    var names, pos := FilterMap(lines, LineReference), Positions(lines, LineReference);
    forall k | 0 <= k < |names| ensures IsFileName(names[k]) {
      assert FileNameOf(lines[pos[k]]) == Some(names[k]);
    }
  }

  /** The two directive lines of an extended playlist are skipped and the song line is kept. */
  lemma ReferenceNamesExample()
    ensures ReferenceNames(Some("#EXTM3U" + "\n" + "#EXTINF:120,X - Y" + "\n" + "song.mp3")) == ["song.mp3"]
  {
    var a, b, c := "#EXTM3U", "#EXTINF:120,X - Y", "song.mp3";
    LinesOfThree(a, b, c);
    NamesOfThree(a, b, c);
  }

  lemma NamesOfThree(a: string, b: string, c: string)
    requires a == "#EXTM3U" && b == "#EXTINF:120,X - Y" && c == "song.mp3"
    ensures FilterMap([a, b, c], LineReference) == [c]
  {
    assert a[..4] == "#EXT" && b[..4] == "#EXT";
    assert '/' !in c;
    FileNameOfName(c);
    FilterMapSnoc([a, b], c, LineReference);
    FilterMapSnoc([a], b, LineReference);
    FilterMapSnoc([], a, LineReference);
    assert [a, b, c] == [a, b] + [c] && [a, b] == [a] + [b] && [a] == [] + [a];
  }

  lemma LinesOfThree(a: string, b: string, c: string)
    requires '\n' !in a && '\n' !in b && '\n' !in c && c != []
    requires StripCr(a) == a && StripCr(b) == b
    ensures Lines(a + "\n" + b + "\n" + c) == [a, b, c]
  {
    LinesCons(b, c);
    assert a + "\n" + b + "\n" + c == a + "\n" + (b + "\n" + c);
    LinesCons(a, b + "\n" + c);
    IndexOfFirst(c, '\n', |c|);
  }

  /** The last component of each song, in order. */
  function LastComponents(songs: seq<Path>): (names: seq<string>)
    requires forall i :: 0 <= i < |songs| ==> songs[i] != []
    ensures |names| == |songs|
  {
    seq(|songs|, i requires 0 <= i < |songs| => songs[i][|songs[i]| - 1])
  }

  /** Reading back a written playlist gives the file name of each of its songs. */
  lemma {:induction false} ReferenceNamesOfContents(songs: seq<Path>)
    requires forall i :: 0 <= i < |songs| ==> ValidPath(songs[i]) && songs[i] != []
    requires M3u.ComponentsLack(songs, '\n') && M3u.ComponentsLack(songs, '\r')
    ensures ReferenceNames(Some(M3u.PlainText(songs))) == LastComponents(songs)
  {
    M3u.PlainTextLines(songs);
    NamesOfRendered(songs);
  }

  lemma {:induction false} NamesOfRendered(songs: seq<Path>)
    requires forall i :: 0 <= i < |songs| ==> ValidPath(songs[i]) && songs[i] != []
    ensures FilterMap(M3u.RenderAll(songs), LineReference) == LastComponents(songs)
  {
    if songs != [] {
      var front, s := songs[..|songs| - 1], songs[|songs| - 1];
      assert songs == front + [s];
      NamesOfRendered(front);
      RenderedLine(s);
      M3u.RenderAllSnoc(front, s);
      FilterMapSnoc(M3u.RenderAll(front), Render(s), LineReference);
      LastComponentsSnoc(front, s);
    }
  }

  lemma LastComponentsSnoc(front: seq<Path>, s: Path)
    requires forall i :: 0 <= i < |front| ==> front[i] != []
    requires s != []
    ensures LastComponents(front + [s]) == LastComponents(front) + [s[|s| - 1]]
  {
  }

  /** The line of a song in a written playlist is not a directive, and it names the song's last component. */
  lemma RenderedLine(s: Path)
    requires ValidPath(s) && s != []
    ensures LineReference(Render(s)) == Some(s[|s| - 1])
  {
    FileNameOfRender(s);
    RenderStartsWithSlash(s);
    assert !IsDirective(Render(s)) by {
      if |Render(s)| >= 4 { assert Render(s)[..4][0] == '/'; }
    }
  }

  /** Looks a name up in the index, as `match_file` does. */
  function Resolver(index: seq<Path>): string -> Option<Path>
  {
    name => FirstMatch(index, name)
  }

  /** The songs `playlist_m3u` collects: the hit of each name that has one, in name order. */
  function Resolve(index: seq<Path>, names: seq<string>): seq<Path>
  {
    FilterMap(names, Resolver(index))
  }

  /** `playlist_m3u`: a playlist called `name` holding the first hit of each file name, misses dropped. */
  method PlaylistM3u(index: seq<Path>, fileNames: seq<string>, name: string) returns (playlist: Playlist)
    requires forall i :: 0 <= i < |fileNames| ==> IsFileName(fileNames[i])
    ensures fresh(playlist)
    ensures playlist.name == name && playlist.songs == Resolve(index, fileNames)
  {
    playlist := new Playlist(name);
    for i := 0 to |fileNames|
      invariant playlist.name == name && playlist.songs == Resolve(index, fileNames[..i])
    {
      FilterMapSnoc(fileNames[..i], fileNames[i], Resolver(index));
      assert fileNames[..i + 1] == fileNames[..i] + [fileNames[i]];
      var filePath := MatchFile(index, fileNames[i]);
      match filePath {
        case Some(s) => playlist.Add(s);
        case None =>
      }
    }
    assert fileNames[..|fileNames|] == fileNames;
  }

  /**
   * The songs of `playlist_m3u`: at most one per name, each the first index entry ending with
   * its originating name, in the order of the names; a name is dropped exactly when no index
   * entry ends with it.
   */
  lemma ResolveSpec(index: seq<Path>, names: seq<string>)
    ensures var songs, pos := Resolve(index, names), Positions(names, Resolver(index));
      && |songs| == |pos| <= |names|
      && Increasing(pos)
      && (forall k :: 0 <= k < |pos| ==>
            pos[k] < |names| && Some(songs[k]) == FirstMatch(index, names[pos[k]])
            && songs[k] in index && EndsWith(songs[k], names[pos[k]]))
      && (forall j :: 0 <= j < |names| ==>
            (j in pos <==> exists e :: 0 <= e < |index| && EndsWith(index[e], names[j])))
  {
    var f := Resolver(index);
    FilterMapPositions(names, f);
    var songs, pos := Resolve(index, names), Positions(names, f);
    forall k | 0 <= k < |pos| ensures songs[k] in index && EndsWith(songs[k], names[pos[k]]) {
      assert f(names[pos[k]]) == Some(songs[k]);
    }
    forall j | 0 <= j < |names|
      ensures j in pos <==> exists e :: 0 <= e < |index| && EndsWith(index[e], names[j])
    {
      FirstMatchSpec(index, names[j]);
      assert f(names[j]) == FirstMatch(index, names[j]);
    }
  }
}
