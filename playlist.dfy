/**
 * `rewrite_playlist_with_auth_urls` (PyHLS/main.py:251-267): every line of
 * an HLS playlist whose stripped form ends in ".ts" is replaced by the
 * server's own segment URL carrying the access token; every other line is
 * kept, stripped. The file is read in text mode, so `readlines` sees
 * universal newlines.
 */
module Playlist {
  import opened Text

  /** Text-mode decoding: "\r\n" and a lone "\r" both become "\n". */
  function UniversalNewlines(s: string): (r: string)
    ensures '\r' !in r
    ensures '\r' !in s ==> r == s
  {
    if s == [] then []
    else if s[0] == '\r' then "\n" + UniversalNewlines(if |s| > 1 && s[1] == '\n' then s[2..] else s[1..])
    else
      var r := [s[0]] + UniversalNewlines(s[1..]);
      assert '\r' !in s ==> '\r' !in s[1..];
      assert '\r' !in s ==> s == [s[0]] + s[1..];
      r
  }

  function IndexOf(s: string, c: char): (i: nat)
    requires c in s
    ensures i < |s| && s[i] == c && c !in s[..i]
  {
    if s[0] == c then 0
    else
      var i := IndexOf(s[1..], c) + 1;
      assert s[..i] == [s[0]] + s[1..][..i - 1];
      i
  }

  /** A line as `readlines` yields it: not empty, "\n" only at its end, and there unless it is the last. */
  predicate IsLine(line: string, last: bool) {
    line != [] && '\n' !in line[..|line| - 1] && (last || line[|line| - 1] == '\n')
  }

  /** The lines of decoded text, each keeping its "\n". */
  function SplitLines(s: string): (lines: seq<string>)
    ensures Concat(lines) == s
    ensures forall i :: 0 <= i < |lines| ==> IsLine(lines[i], i == |lines| - 1)
    decreases |s|
  {
    if s == [] then []
    else if '\n' !in s then
      assert s[..|s| - 1] + [s[|s| - 1]] == s;
      [s]
    else
      var n := IndexOf(s, '\n');
      var rest := SplitLines(s[n + 1..]);
      assert s[..n + 1][..n] == s[..n];
      assert s[..n + 1] + s[n + 1..] == s;
      [s[..n + 1]] + rest
  }

  /** `f.readlines()` on a file opened with mode "r". */
  function ReadLines(content: string): seq<string> {
    SplitLines(UniversalNewlines(content))
  }

  /** The URL a segment is served under (PyHLS/main.py:137). */
  function SegmentUrl(mediaId: string, segmentName: string, authToken: string): string {
    "/stream/" + mediaId + "/" + segmentName + "?token=" + authToken
  }

  /** `s.split("/")[-1]`. */
  function LastComponent(s: string): string {
    LastPiece(s, '/')
  }

  /** What one input line becomes. */
  function RewriteLine(line: string, mediaId: string, authToken: string): string {
    var stripped := Strip(line);
    if EndsWith(stripped, ".ts") then SegmentUrl(mediaId, LastComponent(stripped), authToken) + "\n"
    else stripped + "\n"
  }

  function RewriteAll(lines: seq<string>, mediaId: string, authToken: string): seq<string>
  {
    seq(|lines|, i requires 0 <= i < |lines| => RewriteLine(lines[i], mediaId, authToken))
  }

  /** The body the playlist handler serves for playlist text `content`. */
  function RewrittenPlaylist(content: string, mediaId: string, authToken: string): string {
    Concat(RewriteAll(ReadLines(content), mediaId, authToken))
  }

  /**
   * `rewrite_playlist_with_auth_urls`, given the lines `readlines` returns
   * for the playlist file (`ReadLines` of its text).
   */
  method RewritePlaylistWithAuthUrls(lines: seq<string>, mediaId: string, authToken: string) returns (body: string)
    ensures body == Concat(RewriteAll(lines, mediaId, authToken))
  {
    var newLines: seq<string> := [];
    var i := 0;
    while i < |lines|
      invariant 0 <= i <= |lines|
      invariant newLines == RewriteAll(lines[..i], mediaId, authToken)
    {
      var line := Strip(lines[i]);
      var newLine;
      if EndsWith(line, ".ts") {
        var segmentName := LastComponent(line);
        newLine := SegmentUrl(mediaId, segmentName, authToken) + "\n";
      } else {
        newLine := line + "\n";
      }
      RewriteAllSnoc(lines, i, mediaId, authToken);
      newLines := newLines + [newLine];
      i := i + 1;
    }
    assert lines[..i] == lines;
    body := Concat(newLines);
  }

  lemma RewriteAllSnoc(lines: seq<string>, i: nat, mediaId: string, authToken: string)
    requires i < |lines|
    ensures RewriteAll(lines[..i + 1], mediaId, authToken)
         == RewriteAll(lines[..i], mediaId, authToken) + [RewriteLine(lines[i], mediaId, authToken)]
  {
    assert lines[..i + 1][i] == lines[i];
  }

  // ---------------------------------------------------------------------
  // Properties of the rewriting

  /**
   * A segment line keeps only its last "/"-component, which ends in ".ts",
   * holds no "/", and is what follows the last "/" of the stripped line.
   */
  lemma SegmentLineRewritten(line: string, mediaId: string, authToken: string)
    requires EndsWith(Strip(line), ".ts")
    ensures RewriteLine(line, mediaId, authToken) == SegmentUrl(mediaId, LastComponent(Strip(line)), authToken) + "\n"
    ensures SegmentNameOf(Strip(line), LastComponent(Strip(line)))
  {
    LastComponentIsSegmentName(Strip(line));
  }

  /** `name` is what follows the last "/" of `s`; it ends in ".ts" and holds no "/". */
  predicate SegmentNameOf(s: string, name: string) {
    '/' !in name && EndsWith(name, ".ts") && EndsWith(s, name) &&
    (|name| < |s| ==> s[|s| - |name| - 1] == '/')
  }

  lemma LastComponentIsSegmentName(s: string)
    requires EndsWith(s, ".ts")
    ensures SegmentNameOf(s, LastComponent(s))
  {
    var name := LastComponent(s);
    SplitLastPiece(s, '/');
    assert name == s[|s| - |name|..];
    assert name[|name| - 3..] == s[|s| - 3..];
  }

  /** Every other line is kept, stripped of surrounding white space. */
  lemma OtherLineKept(line: string, mediaId: string, authToken: string)
    requires !EndsWith(Strip(line), ".ts")
    ensures RewriteLine(line, mediaId, authToken) == Strip(line) + "\n"
  {
  }

  /**
   * The test is on the ".ts" suffix, not on the line kind of section 4.1 of
   * RFC 8216: a tag or comment line (one starting with "#") that ends in
   * ".ts" is turned into a URI line, so the tag is lost.
   */
  lemma TagLineEndingInTsBecomesUri(line: string, mediaId: string, authToken: string)
    requires StartsWith(Strip(line), "#") && EndsWith(Strip(line), ".ts")
    ensures StartsWith(RewriteLine(line, mediaId, authToken), "/stream/")
  {
  }

  /** The characters of a stripped line all come from the line, and a "\n" can only have been its end. */
  lemma StripKeepsInterior(line: string)
    requires line != [] && '\n' !in line[..|line| - 1]
    ensures forall c :: c in Strip(line) ==> c in line
    ensures '\n' !in Strip(line)
  {
    var stripped := Strip(line);
    var start := LeadingSpaces(line);
    assert stripped == line[start..start + |stripped|];
    if stripped != [] && start + |stripped| == |line| {
      assert stripped[|stripped| - 1] == line[|line| - 1];
    } else {
      assert forall c :: c in stripped ==> c in line[..|line| - 1];
    }
  }

  /** The characters of a segment URL are those of its three parts and of the fixed text around them. */
  lemma SegmentUrlChars(mediaId: string, segmentName: string, authToken: string)
    ensures forall c :: c in SegmentUrl(mediaId, segmentName, authToken) ==>
      c in mediaId || c in segmentName || c in authToken || c in "/stream?token="
  {
    var fixed := "/stream?token=";
    assert forall c :: c in "/stream/" ==> c in fixed;
    assert forall c :: c in "?token=" ==> c in fixed;
  }

  /** The characters of a rewritten line, "\n" aside, come from the stripped line, the media id, the token or fixed text. */
  lemma RewriteLineChars(line: string, mediaId: string, authToken: string)
    ensures var out := RewriteLine(line, mediaId, authToken);
      out != [] && out[|out| - 1] == '\n' &&
      forall c :: c in out[..|out| - 1] ==> c in Strip(line) || c in mediaId || c in authToken || c in "/stream?token="
  {
    var stripped := Strip(line);
    var out := RewriteLine(line, mediaId, authToken);
    if EndsWith(stripped, ".ts") {
      var name := LastComponent(stripped);
      SplitLastPiece(stripped, '/');
      assert forall c :: c in name ==> c in stripped;
      SegmentUrlChars(mediaId, name, authToken);
      assert out[..|out| - 1] == SegmentUrl(mediaId, name, authToken);
    } else {
      assert out[..|out| - 1] == stripped;
    }
  }

  /** A rewritten input line ends in "\n" and holds no other line break. */
  lemma RewrittenLineIsLine(line: string, mediaId: string, authToken: string)
    requires line != [] && '\n' !in line[..|line| - 1] && '\r' !in line
    requires '\n' !in mediaId && '\n' !in authToken && '\r' !in mediaId && '\r' !in authToken
    ensures var out := RewriteLine(line, mediaId, authToken);
      out != [] && out[|out| - 1] == '\n' && '\n' !in out[..|out| - 1] && '\r' !in out
  {
    StripKeepsInterior(line);
    RewriteLineChars(line, mediaId, authToken);
    var out := RewriteLine(line, mediaId, authToken);
    assert out == out[..|out| - 1] + [out[|out| - 1]];
  }

  /** Text made of lines that each end in their only "\n" reads back as those lines. */
  lemma {:induction false} ReadLinesOfLines(lines: seq<string>)
    requires forall i :: 0 <= i < |lines| ==>
      lines[i] != [] && lines[i][|lines[i]| - 1] == '\n' && '\n' !in lines[i][..|lines[i]| - 1] && '\r' !in lines[i]
    ensures '\r' !in Concat(lines)
    ensures SplitLines(Concat(lines)) == lines
  {
    if lines != [] {
      var first := lines[0];
      var rest := Concat(lines[1..]);
      ReadLinesOfLines(lines[1..]);
      var s := first + rest;
      assert Concat(lines) == s;
      assert '\n' in s by { assert s[|first| - 1] == '\n'; }
      var n := IndexOf(s, '\n');
      assert s[..|first| - 1] == first[..|first| - 1];
      assert n == |first| - 1;
      assert s[..n + 1] == first;
      assert s[n + 1..] == rest;
      assert lines == [first] + lines[1..];
    }
  }

  /**
   * One output line per input line, in order: reading the rewritten
   * playlist back yields exactly the rewritten input lines, provided the
   * media id and the token hold no line break ("\n" or "\r").
   */
  lemma RewritePreservesLines(content: string, mediaId: string, authToken: string)
    requires '\n' !in mediaId && '\n' !in authToken && '\r' !in mediaId && '\r' !in authToken
    ensures ReadLines(RewrittenPlaylist(content, mediaId, authToken)) == RewriteAll(ReadLines(content), mediaId, authToken)
    ensures |ReadLines(RewrittenPlaylist(content, mediaId, authToken))| == |ReadLines(content)|
  {
    var lines := ReadLines(content);
    var out := RewriteAll(lines, mediaId, authToken);
    forall i | 0 <= i < |out|
      ensures out[i] != [] && out[i][|out[i]| - 1] == '\n' && '\n' !in out[i][..|out[i]| - 1] && '\r' !in out[i]
    {
      assert IsLine(lines[i], i == |lines| - 1);
      assert '\r' !in lines[i] by {
        assert forall c :: c in lines[i] ==> c in Concat(lines) by {
          ConcatHolds(lines, i);
        }
      }
      RewrittenLineIsLine(lines[i], mediaId, authToken);
    }
    ReadLinesOfLines(out);
  }

  /** Each piece of a concatenation occurs in it. */
  lemma {:induction false} ConcatHolds(parts: seq<string>, i: int)
    requires 0 <= i < |parts|
    ensures forall c :: c in parts[i] ==> c in Concat(parts)
  {
    if i > 0 {
      ConcatHolds(parts[1..], i - 1);
    }
  }
}
