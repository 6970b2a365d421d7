/**
  Feature normalisation and document building: the crew list yields a
  director (or the NaN missing marker), the cast, keyword and genre lists are
  cut to their first three names, every token is lower-cased with its spaces
  removed, and the four fields are space-joined into one document per film.
 */
module Features {
  import opened PySeq
  import opened Text

  /** One entry of a film's `crew` list. */
  datatype CrewMember = CrewMember(job: string, name: string)

  /** One entry of a film's `cast`, `keywords` or `genres` list. */
  datatype Entry = Entry(name: string)

  /** A parsed list-valued column: a list of entries, or any value that is
      not a list. */
  datatype RawField = Entries(entries: seq<Entry>) | NotAList

  /** The dynamically typed values the cleaning step is applied to: a list
      of names, a single name, or the NaN that stands for a missing director. */
  datatype Value = VList(items: seq<string>) | VStr(text: string) | VNaN

  /** The columns of one film that feed the feature pipeline. */
  datatype RawRecord = RawRecord(cast: RawField, crew: seq<CrewMember>, keywords: RawField, genres: RawField)

  /** A film's canonical features, ready to be joined into its document. */
  datatype Normalized = Normalized(keywords: seq<string>, cast: seq<string>, director: string, genres: seq<string>)

  /** The job title that marks the director in the crew list. */
  const DirectorJob: string := "Director"

  /** How many leading entries of a list column are kept. */
  const ListLimit: nat := 3

  // ---------------------------------------------------------------------
  // Director extraction

  /** True when no crew entry before position `i` is the director. */
  predicate NoDirectorBefore(crew: seq<CrewMember>, i: nat)
    requires i <= |crew|
  {
    forall j :: 0 <= j < i ==> crew[j].job != DirectorJob
  }

  /** The name of the first crew entry whose job is the director's, or the
      NaN marker when the crew has none. */
  function FindDirector(crew: seq<CrewMember>): (r: Value)
    ensures r.VStr? || r.VNaN?
    ensures r.VNaN? <==> NoDirectorBefore(crew, |crew|)
    ensures r.VStr? ==> exists i :: 0 <= i < |crew| && crew[i].job == DirectorJob
                                   && crew[i].name == r.text && NoDirectorBefore(crew, i)
  {
    if |crew| == 0 then VNaN
    else if crew[0].job == DirectorJob then VStr(crew[0].name)
    else
      var r := FindDirector(crew[1..]);
      assert forall j :: 1 <= j < |crew| ==> crew[j] == crew[1..][j - 1];
      if r.VStr? then
        assert exists i :: 1 <= i < |crew| && crew[i].job == DirectorJob
                           && crew[i].name == r.text && NoDirectorBefore(crew, i) by {
          var i :| 0 <= i < |crew[1..]| && crew[1..][i].job == DirectorJob
                   && crew[1..][i].name == r.text && NoDirectorBefore(crew[1..], i);
          assert NoDirectorBefore(crew, i + 1);
        }
        r
      else
        r
  }

  // ---------------------------------------------------------------------
  // List-field reduction

  /** The `name` of every entry, in order. */
  function Names(es: seq<Entry>): (r: seq<string>)
    ensures |r| == |es|
    ensures forall k :: 0 <= k < |r| ==> r[k] == es[k].name
  {
    seq(|es|, k requires 0 <= k < |es| => es[k].name)
  }

  /** The names of the first three entries of a list column (all of them
      when there are fewer), or nothing when the column is not a list. */
  function TakeNames(f: RawField): (r: seq<string>)
    ensures f.NotAList? ==> r == []
    ensures f.Entries? ==> |r| == Min(ListLimit, |f.entries|)
    ensures f.Entries? ==> forall k :: 0 <= k < |r| ==> r[k] == f.entries[k].name
  {
    match f
    case NotAList => []
    case Entries(es) =>
      if |es| > ListLimit then Names(es[..ListLimit]) else Names(es)
  }

  // ---------------------------------------------------------------------
  // Canonicalisation

  predicate IsUpper(c: char) { 'A' <= c <= 'Z' }

  /** ASCII lower-casing of one character. */
  function LowerChar(c: char): (r: char)
    ensures !IsUpper(r)
    ensures r == ' ' <==> c == ' '
    ensures !IsUpper(c) ==> r == c
    ensures IsUpper(c) ==> r as int == c as int + 32
  {
    if IsUpper(c) then (c as int + 32) as char else c
  }

  /** Lower-cases every character of `s`. */
  function Lower(s: string): (r: string)
    ensures |r| == |s|
    ensures forall k :: 0 <= k < |r| ==> r[k] == LowerChar(s[k])
  {
    seq(|s|, k requires 0 <= k < |s| => LowerChar(s[k]))
  }

  /** Lower-casing works character by character, so it distributes over
      concatenation. */
  lemma LowerAppend(a: string, b: string)
    ensures Lower(a + b) == Lower(a) + Lower(b)
  {
  }

  /** Deletes every space character of `s`, keeping the rest in order. */
  function RemoveSpaces(s: string): (r: string)
    ensures ' ' !in r
    ensures |r| == |s| - Spaces(s)
    ensures ' ' !in s ==> r == s
    ensures |s| == 1 ==> r == (if s[0] == ' ' then "" else s)
  {
    if |s| == 0 then ""
    else if s[0] == ' ' then RemoveSpaces(s[1..])
    else
      assert s == [s[0]] + s[1..];
      [s[0]] + RemoveSpaces(s[1..])
  }

  /** Space removal distributes over concatenation; with the one-character
      case above this fixes its result on every string. */
  lemma {:induction false} RemoveSpacesAppend(a: string, b: string)
    ensures RemoveSpaces(a + b) == RemoveSpaces(a) + RemoveSpaces(b)
  {
    if |a| == 0 {
      assert a + b == b;
    } else {
      assert (a + b)[0] == a[0];
      assert (a + b)[1..] == a[1..] + b;
      RemoveSpacesAppend(a[1..], b);
    }
  }

  /** A canonical token: no space and no upper-case letter. */
  predicate Canonical(s: string)
  {
    ' ' !in s && forall k :: 0 <= k < |s| ==> !IsUpper(s[k])
  }

  /** Every token of `xs` is canonical. */
  predicate AllCanonical(xs: seq<string>)
  {
    forall k :: 0 <= k < |xs| ==> Canonical(xs[k])
  }

  /** One token with its spaces removed and then lower-cased; a token is
      left unchanged exactly when it is already canonical. */
  function CleanToken(s: string): (r: string)
    ensures Canonical(r)
    ensures |r| == |s| - Spaces(s)
    ensures r == s <==> Canonical(s)
  {
    var t := RemoveSpaces(s);
    var r := Lower(t);
    assert ' ' !in r by {
      forall k | 0 <= k < |r| ensures r[k] != ' ' {
        assert t[k] != ' ';
      }
    }
    if Canonical(s) then
      assert t == s;
      assert r == s;
      r
    else
      r
  }

  /** Cleaning a token is cleaning its parts and concatenating them. */
  lemma CleanTokenAppend(a: string, b: string)
    ensures CleanToken(a + b) == CleanToken(a) + CleanToken(b)
  {
    RemoveSpacesAppend(a, b);
    LowerAppend(RemoveSpaces(a), RemoveSpaces(b));
  }

  /** Cleaning one character: a space disappears, any other character is
      lower-cased. With CleanTokenAppend this determines every cleaned token. */
  lemma CleanTokenChar(ch: char)
    ensures CleanToken([ch]) == (if ch == ' ' then "" else [LowerChar(ch)])
  {
  }

  /** A space inside a name only glues its words: `"Tom Hanks"` and
      `"tomhanks"` clean to the same token. */
  lemma CleanTokenGluesWords(a: string, b: string)
    ensures CleanToken(a + " " + b) == CleanToken(a) + CleanToken(b)
  {
    CleanTokenAppend(a + " ", b);
    CleanTokenAppend(a, " ");
    CleanTokenChar(' ');
  }

  /** A worked instance: a two-word name with capitals, `"Tom Hanks"`
      cleans to `"tomhanks"`. The two words are parameters pinned by the
      requires rather than literals in the ensures: the verifier evaluates a
      function applied to a whole literal by unrolling it, which is far
      more costly than applying the general lemmas to the two words. */
  lemma CleanTokenExample(tom: string, hanks: string)
    requires tom == "Tom" && hanks == "Hanks"
    ensures CleanToken(tom + " " + hanks) == "tomhanks"
  {
    CleanTokenGluesWords(tom, hanks);
    assert tom == ['T'] + tom[1..] && hanks == ['H'] + hanks[1..];
    CapitalizedWord('T', tom[1..]);
    CapitalizedWord('H', hanks[1..]);
  }

  /** An upper-case initial followed by a canonical rest cleans to the
      lower-case initial followed by the same rest. */
  lemma CapitalizedWord(ch: char, rest: string)
    requires IsUpper(ch) && Canonical(rest)
    ensures CleanToken([ch] + rest) == [(ch as int + 32) as char] + rest
  {
    CleanTokenAppend([ch], rest);
    CleanTokenChar(ch);
  }

  /** The cleaning step applied to each column: lists are cleaned token by
      token, a string is cleaned as a token, and anything else (the NaN
      director) becomes the empty string. */
  function Clean(v: Value): (r: Value)
    ensures v.VList? ==> r.VList? && |r.items| == |v.items|
                         && forall k :: 0 <= k < |r.items| ==> r.items[k] == CleanToken(v.items[k])
    ensures v.VStr? ==> r == VStr(CleanToken(v.text))
    ensures v.VNaN? ==> r == VStr("")
  {
    match v
    case VList(xs) => VList(seq(|xs|, k requires 0 <= k < |xs| => CleanToken(xs[k])))
    case VStr(s) => VStr(CleanToken(s))
    case VNaN => VStr("")
  }

  /** Every token a value holds is canonical. */
  predicate CanonicalValue(v: Value)
  {
    match v
    case VList(xs) => AllCanonical(xs)
    case VStr(s) => Canonical(s)
    case VNaN => false
  }

  /** Cleaning always yields canonical tokens, and it changes nothing that
      is already clean. */
  lemma CleanCanonical(v: Value)
    ensures CanonicalValue(Clean(v))
    ensures CanonicalValue(v) ==> Clean(v) == v
  {
  }

  /** Cleaning twice is cleaning once. */
  lemma CleanIdempotent(v: Value)
    ensures Clean(Clean(v)) == Clean(v)
  {
  }

  // ---------------------------------------------------------------------
  // Per-film normalisation and document building

  /** A list column reduced to its first names and cleaned. */
  function NormalizeList(f: RawField): (r: seq<string>)
    ensures AllCanonical(r)
    ensures f.NotAList? ==> r == []
    ensures f.Entries? ==> |r| == Min(ListLimit, |f.entries|)
    ensures f.Entries? ==> forall k :: 0 <= k < |r| ==> r[k] == CleanToken(f.entries[k].name)
  {
    Clean(VList(TakeNames(f))).items
  }

  /** The director extracted from the crew and cleaned; a missing director
      yields the empty token. */
  function NormalizeDirector(crew: seq<CrewMember>): (r: string)
    ensures Canonical(r)
    ensures NoDirectorBefore(crew, |crew|) ==> r == ""
    ensures !NoDirectorBefore(crew, |crew|) ==>
              exists i :: 0 <= i < |crew| && crew[i].job == DirectorJob
                          && r == CleanToken(crew[i].name) && NoDirectorBefore(crew, i)
  {
    Clean(FindDirector(crew)).text
  }

  /** `xs` is what the pipeline makes of list column `f`: nothing for a
      non-list, otherwise the cleaned names of its first three entries. */
  predicate ListNormalizes(f: RawField, xs: seq<string>)
  {
    && (f.NotAList? ==> xs == [])
    && (f.Entries? ==> |xs| == Min(ListLimit, |f.entries|)
                       && forall k :: 0 <= k < |xs| ==> xs[k] == CleanToken(f.entries[k].name))
  }

  /** `d` is what the pipeline makes of a crew list: `''` without a
      director, otherwise the cleaned name of the first director. */
  predicate DirectorNormalizes(crew: seq<CrewMember>, d: string)
  {
    && (NoDirectorBefore(crew, |crew|) ==> d == "")
    && (!NoDirectorBefore(crew, |crew|) ==>
          exists i :: 0 <= i < |crew| && crew[i].job == DirectorJob
                      && d == CleanToken(crew[i].name) && NoDirectorBefore(crew, i))
  }

  /** The description of a normalised list column admits only one list. */
  lemma ListNormalizesUnique(f: RawField, xs: seq<string>)
    ensures ListNormalizes(f, xs) <==> xs == NormalizeList(f)
  {
  }

  /** The description of a normalised director admits only one token: the
      first director of the crew is unique. */
  lemma DirectorNormalizesUnique(crew: seq<CrewMember>, d: string)
    ensures DirectorNormalizes(crew, d) <==> d == NormalizeDirector(crew)
  {
    if DirectorNormalizes(crew, d) && !NoDirectorBefore(crew, |crew|) {
      var i :| 0 <= i < |crew| && crew[i].job == DirectorJob
               && d == CleanToken(crew[i].name) && NoDirectorBefore(crew, i);
      var j :| 0 <= j < |crew| && crew[j].job == DirectorJob
               && NormalizeDirector(crew) == CleanToken(crew[j].name) && NoDirectorBefore(crew, j);
      FirstDirectorUnique(crew, i, j);
    }
  }

  /** Two crew positions that both hold the first director are the same. */
  lemma FirstDirectorUnique(crew: seq<CrewMember>, i: nat, j: nat)
    requires i < |crew| && crew[i].job == DirectorJob && NoDirectorBefore(crew, i)
    requires j < |crew| && crew[j].job == DirectorJob && NoDirectorBefore(crew, j)
    ensures i == j
  {
  }

  /** All four columns of a film normalised, each column from its own raw
      column: keywords, cast and genres truncated and cleaned, the director
      found in the crew and cleaned. */
  function Normalize(rec: RawRecord): (n: Normalized)
    ensures AllCanonical(n.keywords) && AllCanonical(n.cast) && AllCanonical(n.genres)
    ensures Canonical(n.director)
    ensures ListNormalizes(rec.keywords, n.keywords)
    ensures ListNormalizes(rec.cast, n.cast)
    ensures ListNormalizes(rec.genres, n.genres)
    ensures DirectorNormalizes(rec.crew, n.director)
  {
    Normalized(NormalizeList(rec.keywords), NormalizeList(rec.cast),
               NormalizeDirector(rec.crew), NormalizeList(rec.genres))
  }

  /** The film's document: keywords, cast, director and genres, each list
      space-joined, and the four parts joined by single spaces. */
  function Document(n: Normalized): (r: string)
    ensures r == Join(Segment(n.keywords) + Segment(n.cast) + [n.director] + Segment(n.genres))
  {
    var k, c, g := Segment(n.keywords), Segment(n.cast), Segment(n.genres);
    JoinAppend(k, c);
    JoinAppend(k + c, [n.director]);
    JoinAppend(k + c + [n.director], g);
    Join(n.keywords) + " " + Join(n.cast) + " " + n.director + " " + Join(n.genres)
  }

  /** What splitting on spaces gives back for one list part: its tokens, or
      a single empty piece when the list was empty. */
  function Segment(xs: seq<string>): (r: seq<string>)
    ensures |r| >= 1
    ensures Join(r) == Join(xs)
  {
    if |xs| == 0 then [""] else xs
  }

  /** The pieces of a space-free list part are space-free too. */
  lemma SegmentSpaceFree(xs: seq<string>)
    requires SpaceFree(xs)
    ensures SpaceFree(Segment(xs))
  {
  }

  /** When no token holds a space, splitting a document on spaces recovers
      its four parts in order: keywords, cast, director, genres. */
  lemma DocumentSplits(n: Normalized)
    requires SpaceFree(n.keywords) && SpaceFree(n.cast) && SpaceFree(n.genres)
    requires ' ' !in n.director
    ensures Split(Document(n)) == Segment(n.keywords) + Segment(n.cast) + [n.director] + Segment(n.genres)
  {
    var pieces := Segment(n.keywords) + Segment(n.cast) + [n.director] + Segment(n.genres);
    SegmentSpaceFree(n.keywords);
    SegmentSpaceFree(n.cast);
    SegmentSpaceFree(n.genres);
    assert SpaceFree(pieces);
    SplitJoin(pieces);
  }

  /** Canonical tokens are space-free. */
  lemma CanonicalSpaceFree(xs: seq<string>)
    requires AllCanonical(xs)
    ensures SpaceFree(xs)
  {
  }

  /** Every normalised film's document splits back into its four parts; a
      film without a director contributes an empty director piece. */
  lemma NormalizedDocumentSplits(rec: RawRecord)
    ensures Split(Document(Normalize(rec)))
            == Segment(NormalizeList(rec.keywords)) + Segment(NormalizeList(rec.cast))
               + [NormalizeDirector(rec.crew)] + Segment(NormalizeList(rec.genres))
    ensures NoDirectorBefore(rec.crew, |rec.crew|) ==>
              Split(Document(Normalize(rec)))[|Segment(NormalizeList(rec.keywords))|
                                              + |Segment(NormalizeList(rec.cast))|] == ""
  {
    var n := Normalize(rec);
    CanonicalSpaceFree(n.keywords);
    CanonicalSpaceFree(n.cast);
    CanonicalSpaceFree(n.genres);
    DocumentSplits(n);
  }
}
