/** The innermost loops of `format_cineman_content`: every whitespace-separated token of a
    showtimes segment is cleaned and then filed as a showtime, as a language, or dropped. */
module Tokens {
  import opened Text
  import opened TimeFormat
  import opened Seqs

  /** The characters `s.strip("<></–)")` removes from both ends of a token. */
  predicate IsMarkupJunk(c: char)
  {
    c == '<' || c == '>' || c == '/' || c == '\U{2013}' || c == ')'
  }

  /** A token after `s.strip("<></–)")`, `re.sub("\t", "", s)` and `s.strip()`. */
  function Normalize(token: string): (s: string)
    ensures '\t' !in s
    ensures s == [] || (!IsPythonSpace(s[0]) && !IsPythonSpace(s[|s| - 1]))
  {
    Strip(RemoveChar(Strip(token, IsMarkupJunk), '\t'), IsPythonSpace)
  }

  /** The language test: the token holds a `/` and not the age marker `Y.`, or it is one of
      the single-letter codes. */
  predicate IsLanguageToken(s: string)
    ensures IsLanguageToken(s) <==> (Contains(s, "/") && !Contains(s, "Y.")) || s in ["G", "F", "O", "I", "E"]
  {
    (Find(s, "/") != -1 && Find(s, "Y.") == -1) || s in ["G", "F", "O", "I", "E"]
  }

  datatype TokenKind = Showtime(text: string) | Language(text: string) | Discarded

  /** How the loop files one raw token: the time test comes first, the language test
      second; a filed token is kept in its cleaned form. */
  function ClassifyToken(token: string): (k: TokenKind)
    ensures k.Showtime? <==> IsTimeFormat(Normalize(token))
    ensures k.Language? <==> !IsTimeFormat(Normalize(token)) && IsLanguageToken(Normalize(token))
    ensures !k.Discarded? ==> k.text == Normalize(token)
  {
    var s := Normalize(token);
    if IsTimeFormat(s) then Showtime(s)
    else if IsLanguageToken(s) then Language(s)
    else Discarded
  }

  /** No string passes both tests, so the order in which the loop tries them never decides
      a token's bucket. */
  lemma TimeTokenIsNoLanguage(s: string)
    requires IsTimeFormat(s)
    ensures !IsLanguageToken(s)
  {
    TimeFormatCharacters(s);
    forall i: nat | i <= |s| ensures !OccursAt(s, "/", i) {
      if i + 1 <= |s| {
        assert s[i..i + 1][0] == s[i];
      }
    }
  }

  /** A token that is already clean comes out unchanged. */
  lemma NormalizeKeepsCleanToken(s: string)
    requires s != [] && '\t' !in s
    requires !IsMarkupJunk(s[0]) && !IsMarkupJunk(s[|s| - 1])
    requires !IsPythonSpace(s[0]) && !IsPythonSpace(s[|s| - 1])
    ensures Normalize(s) == s
  {
  }

  /** A clean token is filed by the two tests applied to it directly. */
  lemma ClassifyCleanToken(t: string)
    requires t != [] && '\t' !in t
    requires !IsMarkupJunk(t[0]) && !IsMarkupJunk(t[|t| - 1])
    requires !IsPythonSpace(t[0]) && !IsPythonSpace(t[|t| - 1])
    ensures ClassifyToken(t)
         == if IsTimeFormat(t) then Showtime(t) else if IsLanguageToken(t) then Language(t) else Discarded
  {
    NormalizeKeepsCleanToken(t);
  }

  lemma PairTokenTests()
    ensures !IsTimeFormat("D/F") && IsLanguageToken("D/F")
  {
    TimeFormatIsClockTime("D/F");
    assert OccursAt("D/F", "/", 1);
    ContainsFirstChar("D/F", "Y.");
  }

  lemma CodeTokenTests()
    ensures !IsTimeFormat("G") && IsLanguageToken("G")
  {
    TimeFormatIsClockTime("G");
  }

  lemma AgeTokenTests()
    ensures !IsTimeFormat("Y.12") && !IsLanguageToken("Y.12")
  {
    TimeFormatIsClockTime("Y.12");
    ContainsFirstChar("Y.12", "/");
  }

  lemma SlashedAgeTokenTests()
    ensures !IsTimeFormat("Y.12/16") && !IsLanguageToken("Y.12/16")
  {
    TimeFormatIsClockTime("Y.12/16");
    assert OccursAt("Y.12/16", "Y.", 0);
  }

  /** A time is a showtime. */
  lemma ClassifyTimeExample()
    ensures ClassifyToken("20:30") == Showtime("20:30")
  {
    TimeFormatAcceptsExamples();
    assert "20:30"[0] == '2' && "20:30"[4] == '0';
    ClassifyCleanToken("20:30");
  }

  /** A slashed language pair is a language. */
  lemma ClassifyPairExample()
    ensures ClassifyToken("D/F") == Language("D/F")
  {
    PairTokenTests();
    assert "D/F"[0] == 'D' && "D/F"[2] == 'F';
    ClassifyCleanToken("D/F");
  }

  /** A one-letter language code is a language. */
  lemma ClassifyCodeExample()
    ensures ClassifyToken("G") == Language("G")
  {
    CodeTokenTests();
    assert |"G"| - 1 == 0 && "G"[0] == 'G';
    assert !IsMarkupJunk("G"[0]) && !IsPythonSpace("G"[0]);
    ClassifyCleanToken("G");
  }

  /** An age marker is dropped. */
  lemma ClassifyAgeExample()
    ensures ClassifyToken("Y.12") == Discarded
  {
    AgeTokenTests();
    assert "Y.12"[0] == 'Y' && "Y.12"[3] == '2';
    ClassifyCleanToken("Y.12");
  }

  /** An age marker is dropped even when it holds a slash. */
  lemma ClassifySlashedAgeExample()
    ensures ClassifyToken("Y.12/16") == Discarded
  {
    SlashedAgeTokenTests();
    assert "Y.12/16"[0] == 'Y' && "Y.12/16"[6] == '6';
    ClassifyCleanToken("Y.12/16");
  }

  /** Markup remnants around a clean token are stripped off, and nothing else is. */
  lemma NormalizeStripsMarkup(pre: string, t: string, post: string)
    requires forall i :: 0 <= i < |pre| ==> IsMarkupJunk(pre[i])
    requires forall i :: 0 <= i < |post| ==> IsMarkupJunk(post[i])
    requires t != [] && '\t' !in t
    requires !IsMarkupJunk(t[0]) && !IsMarkupJunk(t[|t| - 1])
    requires !IsPythonSpace(t[0]) && !IsPythonSpace(t[|t| - 1])
    ensures Normalize(pre + t + post) == t
  {
    StripAround(pre, t, post, IsMarkupJunk);
  }

  /** Whitespace and tabs around a clean token are removed, and nothing else is. */
  lemma NormalizeStripsWhitespace(pre: string, t: string, post: string)
    requires forall i :: 0 <= i < |pre| ==> IsPythonSpace(pre[i]) && !IsMarkupJunk(pre[i])
    requires forall i :: 0 <= i < |post| ==> IsPythonSpace(post[i]) && !IsMarkupJunk(post[i])
    requires t != [] && '\t' !in t
    requires !IsMarkupJunk(t[0]) && !IsMarkupJunk(t[|t| - 1])
    requires !IsPythonSpace(t[0]) && !IsPythonSpace(t[|t| - 1])
    ensures Normalize(pre + t + post) == t
  {
    var s := pre + t + post;
    assert Strip(s, IsMarkupJunk) == s by {
      assert s[0] == (if pre == [] then t[0] else pre[0]);
      assert s[|s| - 1] == (if post == [] then t[|t| - 1] else post[|post| - 1]);
    }
    RemoveTabsAround(pre, t, post);
    RemoveCharAll(pre, '\t', IsPythonSpace);
    RemoveCharAll(post, '\t', IsPythonSpace);
    StripAround(RemoveChar(pre, '\t'), t, RemoveChar(post, '\t'), IsPythonSpace);
  }

  lemma RemoveTabsAround(pre: string, t: string, post: string)
    requires '\t' !in t
    ensures RemoveChar(pre + t + post, '\t') == RemoveChar(pre, '\t') + t + RemoveChar(post, '\t')
  {
    RemoveCharAppend(pre, t, '\t');
    RemoveCharAppend(pre + t, post, '\t');
  }


  // ---------------------------------------------------------------------------------------
  // One segment

  /** What one token adds to the segment's `showtimes` list. */
  function TokenShowtime(token: string): (r: seq<string>)
    ensures |r| <= 1 && forall k :: 0 <= k < |r| ==> IsTimeFormat(r[k])
  {
    var k := ClassifyToken(token);
    if k.Showtime? then [k.text] else []
  }

  /** What one token adds to the segment's `languages` list. */
  function TokenLanguage(token: string): (r: seq<string>)
    ensures |r| <= 1 && forall k :: 0 <= k < |r| ==> IsLanguageToken(r[k]) && !IsTimeFormat(r[k])
  {
    var k := ClassifyToken(token);
    if k.Language? then [k.text] else []
  }

  predicate AllTimes(ss: seq<string>)
  {
    forall k :: 0 <= k < |ss| ==> IsTimeFormat(ss[k])
  }

  predicate AllLanguages(ss: seq<string>)
  {
    forall k :: 0 <= k < |ss| ==> IsLanguageToken(ss[k]) && !IsTimeFormat(ss[k])
  }

  /** The `showtimes` list one segment yields: its time tokens, cleaned, in token order. */
  function SegmentShowtimes(tokens: seq<string>): seq<string>
  {
    ConcatMap(tokens, TokenShowtime)
  }

  /** The `languages` list one segment yields: its language tokens, cleaned, in token order. */
  function SegmentLanguages(tokens: seq<string>): seq<string>
  {
    ConcatMap(tokens, TokenLanguage)
  }

  /** A segment's showtimes are all times, its languages all pass the language test and
      not the time test, and no token is filed twice. */
  lemma SegmentBuckets(tokens: seq<string>)
    ensures AllTimes(SegmentShowtimes(tokens))
    ensures AllLanguages(SegmentLanguages(tokens))
    ensures |SegmentShowtimes(tokens)| + |SegmentLanguages(tokens)| <= |tokens|
  {
    ConcatMapAll(tokens, TokenShowtime, IsTimeFormat);
    ConcatMapAll(tokens, TokenLanguage, (s: string) => IsLanguageToken(s) && !IsTimeFormat(s));
    SegmentFilesOnce(tokens);
  }

  lemma {:induction false} SegmentFilesOnce(tokens: seq<string>)
    ensures |SegmentShowtimes(tokens)| + |SegmentLanguages(tokens)| <= |tokens|
  {
    if tokens != [] {
      SegmentFilesOnce(DropLast(tokens));
      var t := Last(tokens);
      assert |TokenShowtime(t)| + |TokenLanguage(t)| <= 1;
    }
  }

  /** Filing a segment split in two files each half on its own and keeps the halves in
      order: with the one-token case this pins both lists down as the tokens filed there,
      in input order. */
  lemma SegmentSplit(a: seq<string>, b: seq<string>)
    ensures SegmentShowtimes(a + b) == SegmentShowtimes(a) + SegmentShowtimes(b)
    ensures SegmentLanguages(a + b) == SegmentLanguages(a) + SegmentLanguages(b)
  {
    ConcatMapAppend(a, b, TokenShowtime);
    ConcatMapAppend(a, b, TokenLanguage);
  }

  lemma SegmentOfOneToken(t: string)
    ensures SegmentShowtimes([t]) == (if IsTimeFormat(Normalize(t)) then [Normalize(t)] else [])
    ensures SegmentLanguages([t]) == (if !IsTimeFormat(Normalize(t)) && IsLanguageToken(Normalize(t)) then [Normalize(t)] else [])
  {
    ConcatMapOne(t, TokenShowtime);
    ConcatMapOne(t, TokenLanguage);
  }

  /** One step of the inner loop, in the loop's own tests. */
  lemma SegmentStep(tokens: seq<string>, i: nat)
    requires i < |tokens|
    ensures SegmentShowtimes(tokens[..i + 1]) == SegmentShowtimes(tokens[..i])
      + (if IsTimeFormat(Normalize(tokens[i])) then [Normalize(tokens[i])] else [])
    ensures SegmentLanguages(tokens[..i + 1]) == SegmentLanguages(tokens[..i])
      + (if !IsTimeFormat(Normalize(tokens[i])) && IsLanguageToken(Normalize(tokens[i])) then [Normalize(tokens[i])] else [])
  {
    assert DropLast(tokens[..i + 1]) == tokens[..i];
    var k := ClassifyToken(tokens[i]);
  }

  /** The inner loop over a segment's tokens. */
  method ClassifySegment(tokens: seq<string>) returns (showtimes: seq<string>, languages: seq<string>)
    ensures showtimes == SegmentShowtimes(tokens)
    ensures languages == SegmentLanguages(tokens)
  {
    showtimes, languages := [], [];
    var i := 0;
    while i < |tokens|
      invariant 0 <= i <= |tokens|
      invariant showtimes == SegmentShowtimes(tokens[..i])
      invariant languages == SegmentLanguages(tokens[..i])
    {
      SegmentStep(tokens, i);
      var s := Normalize(tokens[i]);
      if IsTimeFormat(s) {
        showtimes := showtimes + [s];
      } else if IsLanguageToken(s) {
        languages := languages + [s];
      }
      i := i + 1;
    }
    assert tokens[..i] == tokens;
  }

  // ---------------------------------------------------------------------------------------
  // All segments of one movie

  predicate TimeLists(ls: seq<seq<string>>)
  {
    forall i :: 0 <= i < |ls| ==> ls[i] != [] && AllTimes(ls[i])
  }

  predicate NonEmptyLists(ls: seq<seq<string>>)
  {
    forall i :: 0 <= i < |ls| ==> ls[i] != []
  }

  /** What one segment adds to `showtimes_list`: its showtimes, if it has any. */
  function SegmentShowtimeEntry(segment: seq<string>): seq<seq<string>>
  {
    var s := SegmentShowtimes(segment);
    if s == [] then [] else [s]
  }

  /** What one segment adds to `languages_list`: its languages, if it has any. */
  function SegmentLanguageEntry(segment: seq<string>): seq<seq<string>>
  {
    var s := SegmentLanguages(segment);
    if s == [] then [] else [s]
  }

  /** `showtimes_list`: the non-empty showtime lists of the segments, in segment order. */
  function MovieShowtimes(segments: seq<seq<string>>): seq<seq<string>>
  {
    ConcatMap(segments, SegmentShowtimeEntry)
  }

  /** `languages_list`: the non-empty language lists of the segments, in segment order. */
  function MovieLanguages(segments: seq<seq<string>>): seq<seq<string>>
  {
    ConcatMap(segments, SegmentLanguageEntry)
  }

  /** A movie has at most one showtime list and one language list per segment. A segment
      without showtimes leaves no entry, so the showtime lists line up with the segments
      exactly when every segment has one. */
  lemma MovieListCounts(segments: seq<seq<string>>)
    ensures |MovieShowtimes(segments)| <= |segments| && |MovieLanguages(segments)| <= |segments|
    ensures |MovieShowtimes(segments)| == |segments|
        <==> forall i :: 0 <= i < |segments| ==> SegmentShowtimes(segments[i]) != []
  {
    ConcatMapFilterLength(segments, SegmentShowtimeEntry);
    ConcatMapFilterLength(segments, SegmentLanguageEntry);
  }

  /** Every list a movie keeps is non-empty, and every showtime in it is a time. */
  lemma MovieListContents(segments: seq<seq<string>>)
    ensures TimeLists(MovieShowtimes(segments)) && NonEmptyLists(MovieLanguages(segments))
  {
    forall i, k | 0 <= i < |segments| && 0 <= k < |SegmentShowtimeEntry(segments[i])|
      ensures SegmentShowtimeEntry(segments[i])[k] != [] && AllTimes(SegmentShowtimeEntry(segments[i])[k])
    {
      SegmentBuckets(segments[i]);
    }
    ConcatMapAll(segments, SegmentShowtimeEntry, (s: seq<string>) => s != [] && AllTimes(s));
    ConcatMapAll(segments, SegmentLanguageEntry, (s: seq<string>) => s != []);
  }

  /** The loop over a movie's segments. */
  method ClassifySegments(segments: seq<seq<string>>) returns (showtimesList: seq<seq<string>>, languagesList: seq<seq<string>>)
    ensures showtimesList == MovieShowtimes(segments)
    ensures languagesList == MovieLanguages(segments)
  {
    showtimesList, languagesList := [], [];
    var i := 0;
    while i < |segments|
      invariant 0 <= i <= |segments|
      invariant showtimesList == MovieShowtimes(segments[..i])
      invariant languagesList == MovieLanguages(segments[..i])
    {
      var showtimes, languages := ClassifySegment(segments[i]);
      if showtimes != [] {
        showtimesList := showtimesList + [showtimes];
      }
      if languages != [] {
        languagesList := languagesList + [languages];
      }
      assert DropLast(segments[..i + 1]) == segments[..i];
      assert MovieShowtimes(segments[..i + 1]) == MovieShowtimes(segments[..i]) + SegmentShowtimeEntry(segments[i]);
      assert MovieLanguages(segments[..i + 1]) == MovieLanguages(segments[..i]) + SegmentLanguageEntry(segments[i]);
      i := i + 1;
    }
    assert segments[..i] == segments;
  }
}
