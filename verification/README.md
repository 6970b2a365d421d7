# Content-based film recommender — Dafny model

This project models the core of a small content-based film recommender,
`AIPROJE40.py`. It has two parts.

- **Feature pipeline.** Each film's crew list gives its director: the first
  crew entry whose job is `"Director"`, or NaN when there is none. The cast,
  keyword and genre lists are cut to their first three names. A column that
  is not a list becomes empty. Every token is cleaned: its spaces are removed
  and it is lower-cased. A NaN director becomes `''`. The four fields are then
  space-joined into one document per film, in the order keywords, cast,
  director, genres.
- **Query.** `onerileri_getir(title, n)` looks the title up in the title
  index. An unknown title yields the message `"Film bulunamadı."`. For a known
  title, the function collects the films that share the query film's k-means
  cluster label, in corpus order. It scores each of them against the query,
  stably sorts the `(position, score)` pairs by descending score, drops rank 0,
  keeps the next `n` (10 by default), and returns their corpus indices and
  titles.

Modules:

- `PySeq` (`pyseq.dfy`): Python slicing `xs[a:b]`, with negative and
  out-of-range bounds.
- `Text` (`text.dfy`): `' '.join` and `str.split(' ')`, with their
  round-trip lemmas.
- `Features` (`features.dfy`): crew and list entries, director
  extraction, list truncation, cleaning, per-film normalisation and the
  document.
- `Ranking` (`ranking.dfy`): the stable descending sort over
  `(position, score)` pairs, and the proof that it is the only stably ordered
  permutation.
- `Recommender` (`recommender.dfy`): the title index, the cluster
  restriction, the ranking and the `Recommend` entry point.

Two things are inputs rather than computed. TF-IDF cosine similarity is a
function `sim: (nat, nat) -> real`, where `sim(q, j)` is film `j`'s score
against query `q`. The k-means assignment is each `Item`'s `cluster` field.

Three behaviours of the code differ from what a reader might expect of a
recommender. The model follows the code in each:

- **Cleaning removes only the space character `' '`.** It does not remove
  other whitespace (`replace(" ", "")`, line 55).
- **Rank 0 of the sorted cluster is dropped by position, not by identity**
  (line 100). The film dropped is the *leader*: the earliest film, in corpus
  order, among the films most similar to the query (`Leader`,
  `RankDropsLeader`). So the query is the film dropped at rank 0 exactly
  when it is the leader. When `n` keeps the whole cluster after rank 0, the
  query is missing from its own list exactly then
  (`QueryDroppedIffLeader`). The query is the leader when it is strictly the
  most similar film. It is also the leader when it ties at the top only with
  later films.
  An earlier film can tie with the query's self-similarity, as an identical
  document does. Suppose exactly one earlier film of the cluster ties, every
  other film of the cluster is less similar, and `n >= 1`. Then that earlier
  film is dropped and the query is recommended to itself, in first place
  (`TiedQueryIsRecommendedToItself`).
- **`onerilen_sayi` follows Python slice rules.** A negative count is not
  rejected. `n == -1` gives nothing. A smaller `n` gives `max(0, size + n)`
  films (`RankCount`).

There is one deliberate divergence: duplicate titles. The code's
`drop_duplicates()` on line 83 acts on the index *values*. Those values are
distinct positions, so nothing is dropped. A duplicated title then looks up
several positions, and the cluster comparison on line 92 cannot proceed. The
model resolves a title to its first occurrence instead (`TitleIndex`). The
code's lookup is kept as `MatchingIndices` (see Findings).

## Model

| member | source | states |
|---|---|---|
| Features.FindDirector | AIPROJE40.py:34-38 | The result is NaN exactly when no crew entry has job `"Director"`. Otherwise it is the name of such an entry, and no earlier entry has that job. |
| Features.FirstDirectorUnique | AIPROJE40.py:35-37 | Only one crew position can be a director entry with no director entry before it, so "the first director" is well defined. |
| Features.TakeNames | AIPROJE40.py:41-44 | On a list, the result has exactly `min(3, len)` names. They are the names of the leading entries, in their original order. A non-list gives the empty sequence. |
| Features.LowerChar | AIPROJE40.py:55-57 | An upper-case ASCII letter maps to the letter 32 code points above it (`'A'` to `'a'`). Every other character is unchanged. No upper-case letter comes out, and a space stays a space. |
| Features.LowerAppend | AIPROJE40.py:55-57 | Lower-casing distributes over concatenation. |
| Features.RemoveSpaces | AIPROJE40.py:55-57 | The result has no `' '`. It is shorter by exactly the number of spaces. A space-free string is unchanged. A single space becomes `''` and any other single character stays. |
| Features.RemoveSpacesAppend | AIPROJE40.py:55-57 | Space removal distributes over concatenation. With the one-character case this fixes the result on every string. |
| Features.CleanToken | AIPROJE40.py:55-57 | The cleaned token is canonical: it has no space and no upper-case letter. Its length is the input length minus the spaces. It equals its input if and only if the input was already canonical. |
| Features.CleanTokenAppend | AIPROJE40.py:55-57 | Cleaning a concatenation is concatenating the cleaned parts. |
| Features.CleanTokenChar | AIPROJE40.py:55-57 | Cleaning one character gives `''` for a space and the lower-cased character otherwise. With CleanTokenAppend this determines every cleaned token. |
| Features.CleanTokenGluesWords | AIPROJE40.py:55-57 | Cleaning `a + " " + b` gives the cleaned `a` followed directly by the cleaned `b`. |
| Features.CapitalizedWord | AIPROJE40.py:55-57 | An upper-case initial followed by a canonical rest cleans to the lower-case initial followed by the same rest. |
| Features.CleanTokenExample | AIPROJE40.py:55-57 | `"Tom Hanks"` cleans to `"tomhanks"`. |
| Features.Clean | AIPROJE40.py:53-58 | A list maps to a list of the same length, each element cleaned independently. A string maps to its cleaned token. NaN maps to `''`. |
| Features.CleanCanonical | AIPROJE40.py:53-58 | Cleaning always yields canonical tokens. It leaves an already canonical value unchanged. |
| Features.CleanIdempotent | AIPROJE40.py:53-58 | Cleaning twice gives the same value as cleaning once. |
| Features.NormalizeList | AIPROJE40.py:48-61 | A list column after truncation and cleaning has `min(3, len)` canonical tokens: the cleaned names of the leading entries. A non-list column gives nothing. |
| Features.NormalizeDirector | AIPROJE40.py:47-61 | The director token is canonical. It is `''` when the crew has no director. Otherwise it is the cleaned name of the first director entry. |
| Features.ListNormalizesUnique | AIPROJE40.py:41-61 | A list is a valid normalisation of a list column (`[]` for a non-list, otherwise the cleaned names of the first `min(3, len)` entries) if and only if it equals `NormalizeList`. |
| Features.DirectorNormalizesUnique | AIPROJE40.py:34-61 | A token is a valid normalisation of a crew list (`''` without a director, otherwise the cleaned name of the first director) if and only if it equals `NormalizeDirector`. |
| Features.Normalize | AIPROJE40.py:47-61 | Each field comes from its own raw column. Keywords, cast and genres are the cleaned names of their column's first `min(3, len)` entries, or `[]` for a non-list. The director is `''` without a director and otherwise the cleaned name of the first director. Every token is canonical. |
| Features.Document | AIPROJE40.py:64-65 | The document is one `' '.join` of all pieces in order: keyword tokens, cast tokens, the director, genre tokens. An empty list contributes one empty piece. |
| Features.DocumentSplits | AIPROJE40.py:64-65 | When no token contains a space, splitting the document on `' '` gives back keywords, cast, director and genres, in that order. An empty list leaves one empty piece. |
| Features.NormalizedDocumentSplits | AIPROJE40.py:47-67 | For every raw film, splitting its document on `' '` gives the normalised keywords, cast, director and genres of its raw columns, in that order. A film without a director gives an empty director piece rather than a failure. |
| PySeq.Slice | AIPROJE40.py:100 | `xs[start:stop]` has `max(0, hi - lo)` elements, where `lo` and `hi` are the bounds normalised Python's way: a negative bound counts from the end, then both are clamped into `[0, len]`. Element `k` is `xs[lo + k]`. |
| Text.Join | AIPROJE40.py:65 | No pieces give `''` and one piece gives itself. For `k >= 1` space-free pieces, the result holds exactly `k - 1` spaces. |
| Text.JoinAppend | AIPROJE40.py:65 | Joining two non-empty lists is joining each and putting one space between the results. |
| Text.SplitAround | AIPROJE40.py:65 | Splitting on `' '` distributes over a joining space: `split(a + " " + b) == split(a) + split(b)`. |
| Text.SplitJoin | AIPROJE40.py:65 | `split(' '.join(xs)) == xs` for a non-empty list of space-free tokens. |
| Text.JoinSplit | AIPROJE40.py:65 | `' '.join(s.split(' ')) == s` for every string. |
| Ranking.Insert | AIPROJE40.py:99 | Insertion adds exactly one occurrence of the element: the multiset grows by `x` and the length by one. |
| Ranking.InsertNonIncreasing | AIPROJE40.py:99 | Inserting into a list sorted by descending score keeps it sorted. |
| Ranking.InsertStable | AIPROJE40.py:99 | Inserting an element whose position precedes all others keeps a stably ordered list stably ordered. |
| Ranking.SortByScoreDesc | AIPROJE40.py:99 | The result is a permutation of the input, with scores non-increasing. For input in position order, as `enumerate` gives, equal scores keep position order. |
| Ranking.StablyOrderedUnique | AIPROJE40.py:99 | Two stably ordered permutations of the same pairs are equal. |
| Ranking.SortIsTheStableOrder | AIPROJE40.py:99 | Any stably ordered permutation of a position-ordered input is the sort's result. So the sort is exactly the stable descending order. |
| Recommender.TitleIndex | AIPROJE40.py:83 | The index's keys are exactly the corpus titles. Each key maps to a film with that title, and no earlier film has it (keep-first). |
| Recommender.MatchingIndices | AIPROJE40.py:83-90 | The code's lookup returns every index carrying the title, and only those. |
| Recommender.DuplicateTitleIsAmbiguous | AIPROJE40.py:83-92 | With two films of one title, the code's lookup gives at least two indices. |
| Recommender.TitleIndexKeepsFirst | AIPROJE40.py:83 | A duplicated title resolves to a film no later than its first copy, never to a later copy. |
| Recommender.ClusterMembers | AIPROJE40.py:91-92 | The result holds exactly the films with the given label, in strictly increasing corpus order. |
| Recommender.PositionOf | AIPROJE40.py:98 | The result is the position of the query within its cluster (`get_loc`). |
| Recommender.Ordering | AIPROJE40.py:95-99 | The sorted cluster has one entry per member. Each entry's score is that member's similarity to the query. |
| Recommender.OrderingFacts | AIPROJE40.py:97-99 | The sorted cluster is stably ordered and lists every cluster member with its score. |
| Recommender.Recommend | AIPROJE40.py:86-104 | The answer is not-found exactly when no film has the title, and then it carries the `"Film bulunamadı."` message. Otherwise its entries are the ranking of the title's first film, each paired with its own title. |
| Recommender.WithTitles | AIPROJE40.py:104 | Each returned index is paired with that film's own title, in rank order. |
| Recommender.Rank | AIPROJE40.py:95-103 | As many films are returned as `ordering[1:n + 1]` has entries. Every one is a corpus film with the query's cluster label. |
| Recommender.RankEntry | AIPROJE40.py:100-103 | Entry `k` of the result is the member at rank `k + 1` of the sorted cluster, with that rank's score. |
| Recommender.RankPair | AIPROJE40.py:99-103 | Any two returned films compare like their sorted entries (`RanksAbove`): higher similarity first, ties in corpus order. |
| Recommender.RankOrdered | AIPROJE40.py:98-103 | Returned films are non-increasing in similarity, equal similarities are in corpus order, and no film appears twice. |
| Recommender.RankCount | AIPROJE40.py:100 | For `n >= 0`, exactly `min(n, size - 1)` films are returned, so a singleton cluster gives none. Negative `n` follows Python slicing. |
| Recommender.HeadRanksFirst | AIPROJE40.py:99-100 | The film at rank 0 of the sorted cluster ranks above every other film of the cluster. |
| Recommender.Leader | AIPROJE40.py:98-100 | The rank-0 film lies in the cluster, and no cluster member is more similar to the query. Among equally similar members it has the smallest corpus index. |
| Recommender.RankIsTopOfCluster | AIPROJE40.py:98-103 | Every cluster member left out, other than the rank-0 film, ranks below every returned film. |
| Recommender.RankDropsLeader | AIPROJE40.py:100 | The rank-0 film (the leader) is never returned. When the query is strictly the most similar film of its cluster, the query is never returned. |
| Recommender.QueryDroppedIffLeader | AIPROJE40.py:98-100 | Suppose `n` keeps the whole cluster after rank 0. Then the query is missing from its own list if and only if it is the leader. |
| Recommender.MembersInjective | AIPROJE40.py:92-95 | Distinct positions within the cluster hold distinct films. |
| Recommender.AheadOfTiedQuery | AIPROJE40.py:99 | Suppose one earlier film ties with the query and all other films score lower. Then any entry sorted ahead of the query is that earlier film. |
| Recommender.TiedQueryIsRecommendedToItself | AIPROJE40.py:98-100 | Suppose exactly one earlier cluster film ties with the query's self-similarity, every other cluster film is less similar, and `n >= 1`. Then the query is the first film recommended to itself. |
| Recommender.UnknownTitleNotFound | AIPROJE40.py:87-88 | An unknown title yields the not-found message, which differs from an empty recommendation list. |
| Recommender.SingletonClusterYieldsEmpty | AIPROJE40.py:91-100 | A film that is the first with its title and alone in its cluster gets an empty list of recommendations, for every count `n`, not the not-found answer. |

## Left out

- CSV loading, the numeric-id filter, the table merges, the 90th-percentile vote-count filter and `literal_eval` parsing (AIPROJE40.py:9-31) are data ingestion. The model starts from parsed records (`RawRecord`).
- The TF-IDF fit (AIPROJE40.py:70-71) and `cosine_similarity` (line 97) are library numerics over floats. They are replaced by the score function `sim`. Floating-point rounding and NaN scores are not modelled: scores are exact reals.
- The k-means fit with `n_clusters=10, random_state=42` (AIPROJE40.py:74-79) is a seeded library computation. Cluster labels are an input, and nothing in the query depends on the bound 10.
- The interactive `input`/`print` loop (AIPROJE40.py:107-115) is I/O. The caller's test `isinstance(oneriler, str)` corresponds to the `NotFound` / `Found` variants of `Answer`.
- The returned pandas Series is modelled as a sequence of (corpus index, title) pairs in rank order.
- Features.CleanToken: lower-cases only ASCII letters `A`-`Z`. Python's `str.lower` also maps non-ASCII letters, and that Unicode case mapping is not modelled.
- Recommender.TitleIndex: resolves a duplicated title to its first film. The code does not support duplicated titles (see Findings), so this is a deliberate divergence.

## Findings

| source | as written | input that shows it | evidently intended | confidence | as-written member | corrected member |
|---|---|---|---|---|---|---|
| AIPROJE40.py:83 | `drop_duplicates()` removes repeated index positions, which never repeat. A duplicated title therefore looks up several positions, and the cluster comparison on line 92 then fails. | A corpus with two films titled `"A"`, queried with `"A"`. | One index per title, keeping the first occurrence. | medium, not executed | Recommender.MatchingIndices (exhibited by Recommender.DuplicateTitleIsAmbiguous) | Recommender.TitleIndex (with Recommender.TitleIndexKeepsFirst), used by Recommender.Recommend |
