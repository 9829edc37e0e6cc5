# playlist-localizer, modelled in Dafny

playlist-localizer rewrites `.m3u` playlists so their entries point at music files present on
this machine. It reads every playlist found in the music directory and takes, from each line
that is not an `#EXT` directive, the file name of the path on that line. It looks each name up
in an index of the local files, keeping the first file whose last component is that name. It
then writes the hits, in order, as a new playlist. A second writer
(`src/playlist.rs`) produces either a plain playlist or an extended one. The extended form has
an `#EXTM3U` header and, per song, a block filled in from a fixed pattern. The pattern holds
the placeholders `<duration>`, `<artist>`, `<title>` and `<path>`, and they are replaced in
that order.

The model covers these in-memory steps:

- `seqs.dfy` (`Seqs`, `Options`): the "push what the closure keeps" loops that build every
  result vector. `FilterMap` is the result and `Positions` gives the positions it came from;
  the lemmas give order, subsequence and membership.
- `text.dfy` (`Text`): the string operations the code relies on, and the ones the model needs.
  - Splitting on one character and joining. The code calls neither: they read the components
    of a `Path` and state the line structure of the written text.
  - `str::lines`, which strips `'\n'` and one preceding `'\r'`.
  - `str::starts_with`.
  - `str::replace`: leftmost, non-overlapping and without rescanning the inserted text.
  - `u64::to_string`, with its round trip.
- `paths.dfy` (`Paths`): `std::path` as the tool uses it.
  - An index entry is an absolute path, given as its components.
  - `Path::ends_with` is applied to a one-component name.
  - `Path::file_name` of a playlist line splits on `'/'` and skips empty parts and `.`; a
    trailing `..` gives no name.
  - `Path::extension` is the text after the last dot of the file name, unless that dot comes
    first.
- `m3u.dfy` (`M3u`): the plain playlist text shared by `Playlist::contents`
  (`src/main.rs`) and `Playlist::to_m3u` (`src/playlist.rs`).
- `localizer.dfy` (`Localizer`): `match_file`, `match_file_extension`, `file_names_m3u` and
  `playlist_m3u`, plus the mutable `Playlist` of `src/main.rs` as a class.
- `playlist.dfy` (`PlaylistFormat`): the `Playlist` of `src/playlist.rs` as a datatype, with
  `to_m3u` and `to_extm3u`. The song tags come from a parameter `meta`.

Every loop of the modelled functions is a method with a loop. Each method is proved equal to a function,
and the properties are proved about that function as lemmas.

The matcher in `src/main.rs` is a first-hit linear scan over the whole index that compares only
the last component. There is no stem index, no suffix scoring and no extension tie-break.

## Model

| member | source | states |
|---|---|---|
| Localizer.Playlist.constructor | src/main.rs:15-17 | a new playlist has the given name and no songs |
| Localizer.Playlist.Add | src/main.rs:19-21 | exactly one song is appended at the end; the name is unchanged |
| Localizer.Playlist.Contents | src/main.rs:35-44 | the text is the plain playlist text of the songs (each path and a newline, in order) |
| Paths.EndsWith | src/main.rs:82 | `Path::ends_with` with a one-component name: the path has a last component and it equals the name |
| Localizer.FirstMatchAt | src/main.rs:80-88 | the position found is at most the index length; an entry there ends with the name and no earlier entry does |
| Localizer.MatchFile | src/main.rs:80-88 | the scan with early return yields the first index entry ending with the name, or none |
| Localizer.FirstMatchSpec | src/main.rs:80-88 | no result exactly when no entry ends with the name; a result is an index entry ending with it, and no earlier entry ends with it |
| Localizer.MatchFileExtension | src/main.rs:90-101 | the pushed results are the entries whose extension equals the given one, filtered in index order |
| Localizer.WithExtensionExact | src/main.rs:90-101 | the results are the index entries at increasing positions. A position is taken if and only if its entry's extension equals the given one. A path is in the result if and only if it is in the index and has that extension; entries without an extension are never taken |
| Localizer.IsDirective | src/main.rs:115 | a line is a directive exactly when it starts with `#EXT` |
| Localizer.FileNamesM3u | src/main.rs:103-123 | a failed read gives no names; otherwise one file name per non-`#EXT` line, in line order |
| Localizer.ReferenceNamesSpec | src/main.rs:114-119 | one name per line not starting with `#EXT`, at increasing line positions (taken if and only if the line is not a directive), each the file name of its line and a proper file name |
| Localizer.ReferenceNamesExample | src/main.rs:114-119 | the lines `#EXTM3U`, `#EXTINF:120,X - Y`, `song.mp3` yield exactly `["song.mp3"]` |
| Localizer.RenderedLine | src/main.rs:114-117 | a song's line in a written playlist is not a directive and names the song's last component |
| Localizer.ReferenceNamesOfContents | src/main.rs:103-123 | reading back a written playlist whose components lack newlines and carriage returns gives the last component of each song, in order |
| Localizer.PlaylistM3u | src/main.rs:125-137 | a fresh playlist with the given name, whose songs are the first hits of the names that have one, in name order |
| Localizer.ResolveSpec | src/main.rs:125-137 | at most one song per name, at increasing name positions. Each song is the first hit of its name, is in the index and ends with that name. A name is dropped exactly when no index entry ends with it |
| Seqs.FilterMapPositions | src/main.rs:93-98 | a push loop's result has one element per kept position; the positions are increasing and within the input; a position is kept if and only if the closure keeps its element, and the result holds the kept values in order |
| Seqs.FilterMapSnoc | src/main.rs:128-134 | one more input element adds its kept value at the end, or nothing |
| Paths.LastNormal | src/main.rs:116-117 | a name found among the parts is a proper file name |
| Paths.FileNameOf | src/main.rs:116-117 | `file_name` of a line, when present, is a proper file name (non-empty, no `/`, not `.` or `..`) |
| Paths.FileNameOfName | src/main.rs:116-117 | a line that is a bare file name has itself as its file name |
| Paths.FileNameOfChild | src/main.rs:116-117 | `dir/name` has file name `name` for any `dir` |
| Paths.FileNameOfTrailingSlash | src/main.rs:116-117 | a trailing `/` does not change the file name |
| Paths.FileNameOfRender | src/main.rs:116-117 | the rendering of a non-empty path has the path's last component as its file name |
| Paths.Render | src/main.rs:39 | `to_str` of an absolute path: `/` before each component, and `/` alone for the root |
| Paths.RenderStartsWithSlash | src/main.rs:39 | a rendered absolute path is non-empty and starts with `/` |
| Paths.RenderLacksChar | src/main.rs:39 | a rendered path lacks any non-separator character its components lack |
| Paths.Extension | src/main.rs:94 | `Path::extension`: no extension for the root, otherwise the extension of the last component |
| Paths.NameExtension | src/main.rs:94 | the text after the last `.` of a file name; none when there is no dot, when the last dot is the first character, or for `..` |
| Paths.ExtensionFound | src/main.rs:94 | a found extension has no dot and splits the name into a non-empty stem, a dot and the extension |
| Paths.ExtensionOf | src/main.rs:94 | conversely, a non-empty stem, a dot and dot-free text have that text as extension |
| Paths.NoExtension | src/main.rs:94 | a name without a dot, or whose only dot is its first character, has no extension |
| M3u.PlainTextSnoc | src/main.rs:38-41 | one more song appends exactly its path and a newline |
| M3u.PlainTextEmpty | src/playlist.rs:39-50 | the text is empty if and only if there are no songs |
| M3u.PlainTextLength | src/playlist.rs:42-46 | the length is the sum over songs of path length plus one |
| M3u.PlainTextSplit | src/playlist.rs:42-46 | with newline-free components, splitting on `'\n'` gives the paths in order and one trailing empty string |
| M3u.PlainTextLines | src/main.rs:38-41 | with components free of `'\n'` and `'\r'`, `str::lines` of the text gives exactly the paths |
| PlaylistFormat.Playlist.ToM3u | src/playlist.rs:39-50 | the output is the plain playlist text of the songs |
| PlaylistFormat.Playlist.ToExtm3u | src/playlist.rs:52-67 | the output is the header followed by each song's block, in order |
| PlaylistFormat.ExtTextSnoc | src/playlist.rs:55-63 | one more song appends exactly its block |
| PlaylistFormat.SongBlock | src/playlist.rs:57-61 | the song pattern with every `<duration>`, then `<artist>`, `<title>` and `<path>` replaced in that order, each step acting on the previous result |
| PlaylistFormat.SongBlockShape | src/playlist.rs:57-61 | a block is a newline, the `#EXTINF:` directive line, a newline and the path; the line shows the substitutions acting on earlier inserted text |
| PlaylistFormat.SongBlockPlain | src/playlist.rs:7-9 | with no placeholder in the tags, a block is `\n#EXTINF:` then the decimal duration, `,`, the artist, ` - `, the title, `\n` and the path |
| PlaylistFormat.ArtistTitleQuirk | src/playlist.rs:59-60 | an artist equal to `<title>` is written as the title |
| PlaylistFormat.TitlePathQuirk | src/playlist.rs:60-61 | a title equal to `<path>` is written as the song's path |
| PlaylistFormat.ExtTextHeader | src/playlist.rs:53-66 | the text starts with `#EXTM3U`, and is exactly `#EXTM3U` if and only if there are no songs |
| PlaylistFormat.ExtLines | src/playlist.rs:53-63 | the text has 1 + 2n lines for n songs |
| PlaylistFormat.ExtLinesAt | src/playlist.rs:53-63 | line 0 is the header; lines 1+2i and 2+2i are song i's directive line and path |
| PlaylistFormat.ExtTextIsJoin | src/playlist.rs:53-63 | the text is its lines joined by newlines |
| PlaylistFormat.InfLineStart | src/playlist.rs:8 | a directive line starts with `#EXTINF:` |
| PlaylistFormat.InfLineNewlineFree | src/playlist.rs:8 | a directive line is newline-free when the tags and the path are |
| PlaylistFormat.ExtLinesNewlineFree | src/playlist.rs:57-61 | with newline-free paths and tags, no line holds a newline |
| PlaylistFormat.ExtTextSplit | src/playlist.rs:53-63 | with newline-free paths and tags, splitting on `'\n'` gives 1 + 2n lines: the header, then for each song in order its `#EXTINF:` line and its path |
| Text.IndexOf | src/main.rs:114 | the first occurrence of a character, or the length when there is none |
| Text.SplitPartsLackSeparator | src/main.rs:116 | no part of a split holds the separator |
| Text.SplitJoin | src/playlist.rs:42-46 | splitting the join of separator-free parts gives the parts back |
| Text.SplitAround | src/main.rs:116 | splitting around one separator splits both sides independently |
| Text.TerminatedIsJoin | src/playlist.rs:42-46 | newline-terminated lines are the lines plus an empty one, joined by newlines |
| Text.SplitTerminated | src/playlist.rs:42-46 | splitting newline-terminated newline-free lines gives the lines and a trailing empty string |
| Text.LastIndexOf | src/main.rs:94 | the last occurrence of a character, or -1 when there is none |
| Text.Lines | src/main.rs:114 | `str::lines`: the text cut after each `'\n'`, each line without its `'\n'` and one `'\r'` before it; a final unterminated line is kept, an empty text has no lines |
| Text.LinesCons | src/main.rs:114 | `str::lines` takes a first newline-free line with its trailing `'\r'` stripped, then the lines of the rest |
| Text.LinesOfTerminated | src/main.rs:114 | `str::lines` of newline-terminated lines without `'\r'` or `'\n'` gives the lines back |
| Text.Replace | src/playlist.rs:57-61 | `str::replace`: scanning left to right, each match of the pattern becomes the replacement and scanning resumes after the match, so inserted text is never rescanned |
| Text.ReplaceAbsent | src/playlist.rs:57-61 | replacing a pattern that does not occur changes nothing |
| Text.ReplaceWhole | src/playlist.rs:57-61 | replacing the whole text gives the replacement |
| Text.ReplaceConcat | src/playlist.rs:57-61 | replacement distributes over a concatenation whose junction cannot be inside a match |
| Text.ReplaceSlot | src/playlist.rs:57-61 | a placeholder framed by characters outside the pattern is replaced, and so are the matches on either side |
| Text.ReplaceOnce | src/playlist.rs:57-61 | a single placeholder in pattern-free surroundings becomes the replacement, the rest unchanged |
| Text.ReplaceKeepsOut | src/playlist.rs:57-61 | a character in neither the text nor the replacement is not in the result |
| Text.Decimal | src/playlist.rs:58 | `u64::to_string`: non-empty, all digits, no leading zero except for 0 |
| Text.DecimalRoundTrip | src/playlist.rs:58 | reading the decimal text back gives the number |

## Left out

- `index` (src/main.rs:66-78): the directory walk, `canonicalize` and the metadata check are I/O. The index is an input sequence of paths.
- `main` (src/main.rs:47-64): fixed machine paths and the orchestration of I/O.
- `Playlist::write_to` in both files: file creation and writing, and `Path::with_extension`.
- Opening and reading the playlist file in `file_names_m3u`: the contents read are an input, and `None` stands for a failed read. A failed `File::open` panics in the source and is not modelled.
- `src/metadata.rs` (the tag readers): these are foreign calls. The tags are the parameter `meta`.
- Non-UTF-8 paths (`to_str` returning `None`): every path is a string here.
- PlaylistFormat.Playlist.ToM3u: does not model `to_m3u` skipping a path that is not valid UTF-8, since every path is a string here.
- PlaylistFormat.Playlist.ToExtm3u: does not model the empty path written for a path that is not valid UTF-8, for the same reason.
- Localizer.MatchFile: requires the name to be a proper file name. `Path::ends_with` with a multi-component, empty, `.` or `..` argument is not modelled. The only caller passes names that `file_name` produced, and those are always proper file names.
- Localizer.PlaylistM3u: requires every name to be a proper file name, for the same reason as `MatchFile`.
- Localizer.FileNamesM3u: requires every non-directive line to have a file name, because `unwrap` panics on one without.
- PlaylistFormat.SongMetadata: the duration is an unbounded natural; the `u64` bound is not modelled.
- The root path `/` is rendered as `"/"` and cannot be an index entry (index entries are files). No property depends on it.
