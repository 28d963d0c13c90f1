/** The database front end, `ParseBase`: for every stored search phrase and
    every stored city it runs a search crawl and inserts the ads that pass
    the exclusion filter. The database and the crawl are replaced by inputs:
    the phrase and city tables as row sequences, the excluded-words query
    as a function of the phrase id, and the crawl as a function of
    (phrase, city name). What the loop does is recorded as a log of
    actions, in order. */
module ParseBase {
  import Seqs
  import Text

  /** An ad as the database-side crawl returns it. */
  datatype Ad = Ad(title: string, sellerName: string, url: string, price: int)

  /** A row of `search_phrases`: id, item id, phrase. */
  datatype PhraseRow = PhraseRow(id: int, itemId: int, phrase: string)

  /** A row of `cities`: id, name. */
  datatype CityRow = CityRow(id: int, name: string)

  /** A row of `excluded_words`: row id, phrase id, word. */
  datatype WordRow = WordRow(rowId: int, phraseId: int, word: string)

  /** The values of one insert into `items_competitors_avito`. */
  datatype Insert = Insert(
    phraseId: int,
    itemId: int,
    title: string,
    url: string,
    price: int,
    cityId: int)

  /** One step of `start_parse` that talks to the outside world. */
  datatype Action =
    | LoadWords(phraseId: int)
    | Search(phrase: string, city: string)
    | Store(row: Insert)
    | Commit

  // ---------------------------------------------------------------------
  // The keep rule of `__process_ad`
  // ---------------------------------------------------------------------

  /** An excluded word hits a title when its lower-case form is a substring
      of the title's lower-case form. */
  predicate WordHits(word: string, title: string)
  {
    Text.Contains(Text.Lower(word), Text.Lower(title))
  }

  /** The match ignores case on both sides: lower-casing the word or the
      title first changes nothing, and titles that agree up to case are hit
      by the same words. */
  lemma WordHitsIgnoresCase(word: string, title: string, other: string)
    ensures WordHits(Text.Lower(word), title) == WordHits(word, title)
    ensures WordHits(word, Text.Lower(title)) == WordHits(word, title)
    ensures Text.Lower(title) == Text.Lower(other) ==> WordHits(word, title) == WordHits(word, other)
  {
    Text.LowerProjects(word);
    Text.LowerProjects(title);
  }

  /** `any(...)` over the excluded words, scanned front to back. */
  function AnyWordHits(words: seq<string>, title: string): (hit: bool)
    ensures hit <==> exists k :: 0 <= k < |words| && WordHits(words[k], title)
  {
    if |words| == 0 then false
    else WordHits(words[0], title) || AnyWordHits(words[1..], title)
  }

  /** An ad is inserted exactly when no excluded word hits its title and its
      seller is not (exactly, case-sensitively) on the exclusion list. */
  function KeepAd(words: seq<string>, users: seq<string>, ad: Ad): (keep: bool)
    ensures keep <==>
      (forall k :: 0 <= k < |words| ==> !WordHits(words[k], ad.title))
      && (forall k :: 0 <= k < |users| ==> users[k] != ad.sellerName)
  {
    !AnyWordHits(words, ad.title) && ad.sellerName !in users
  }

  /** Appending one more excluded word keeps an ad only if it was kept
      before and the new word does not hit its title. */
  lemma KeepAfterAddedWord(words: seq<string>, w: string, users: seq<string>, ad: Ad)
    ensures KeepAd(words + [w], users, ad) <==> KeepAd(words, users, ad) && !WordHits(w, ad.title)
  {
    assert (words + [w])[|words|] == w;
    assert forall k :: 0 <= k < |words| ==> (words + [w])[k] == words[k];
  }

  /** Appending one more excluded seller keeps an ad only if it was kept
      before and the ad is not by that seller. */
  lemma KeepAfterAddedUser(words: seq<string>, users: seq<string>, name: string, ad: Ad)
    ensures KeepAd(words, users + [name], ad) <==> KeepAd(words, users, ad) && ad.sellerName != name
  {
  }

  /** Monotonicity: larger exclusion lists (in the sense of membership)
      never turn a dropped ad into a kept one. */
  lemma KeepAntitone(words: seq<string>, words': seq<string>, users: seq<string>, users': seq<string>, ad: Ad)
    requires forall w :: w in words ==> w in words'
    requires forall u :: u in users ==> u in users'
    ensures KeepAd(words', users', ad) ==> KeepAd(words, users, ad)
  {
    if KeepAd(words', users', ad) {
      forall k | 0 <= k < |words|
        ensures !WordHits(words[k], ad.title)
      {
        assert words[k] in words';
      }
    }
  }

  /** With no excluded words and no excluded sellers every ad is kept. */
  lemma KeepWithoutExclusions(ad: Ad)
    ensures KeepAd([], [], ad)
  {
  }

  /** The empty word is a substring of every title, so an empty entry in
      the word list drops every ad. */
  lemma EmptyWordDropsAll(words: seq<string>, users: seq<string>, ad: Ad)
    requires "" in words
    ensures !KeepAd(words, users, ad)
  {
  }

  // ---------------------------------------------------------------------
  // `exclude_user_by_name` and `__get_excluded_words`
  // ---------------------------------------------------------------------

  /** The exclusion list after `exclude_user_by_name(name)`. */
  function ExcludeUserByName(users: seq<string>, name: string): (users': seq<string>)
    ensures |users'| == |users| + 1
    ensures users'[..|users|] == users && users'[|users|] == name
  {
    users + [name]
  }

  /** After excluding a seller, that seller's ads are dropped and every
      other ad is treated as before. */
  lemma ExcludeUserEffect(words: seq<string>, users: seq<string>, name: string, ad: Ad)
    ensures ad.sellerName == name ==> !KeepAd(words, ExcludeUserByName(users, name), ad)
    ensures ad.sellerName != name ==>
      KeepAd(words, ExcludeUserByName(users, name), ad) == KeepAd(words, users, ad)
  {
  }

  /** The words of the rows, appended one per row in row order. */
  function ExcludedWords(rows: seq<WordRow>): (words: seq<string>)
    ensures |words| == |rows|
    ensures forall k :: 0 <= k < |rows| ==> words[k] == rows[k].word
  {
    if |rows| == 0 then []
    else ExcludedWords(rows[..|rows| - 1]) + [rows[|rows| - 1].word]
  }

  // ---------------------------------------------------------------------
  // `start_parse`
  // ---------------------------------------------------------------------

  /** The insert of `__process_ad` for one ad found for a phrase in a city. */
  function InsertOf(p: PhraseRow, c: CityRow, ad: Ad): Insert
  {
    Insert(p.id, p.itemId, ad.title, ad.url, ad.price, c.id)
  }

  /** The inner `for ad in catalog_of_ads` loop. */
  function AdLoop(p: PhraseRow, c: CityRow, words: seq<string>, users: seq<string>,
                  ads: seq<Ad>): seq<Action>
  {
    if |ads| == 0 then []
    else
      (if KeepAd(words, users, ads[0]) then [Store(InsertOf(p, c, ads[0]))] else [])
      + AdLoop(p, c, words, users, ads[1..])
  }

  /** The `for row_of_city` loop of one phrase: one crawl per city, then
      that city's ads. The word list is the one loaded for the phrase. */
  function CityLoop(p: PhraseRow, cities: seq<CityRow>, words: seq<string>, users: seq<string>,
                    search: (string, string) -> seq<Ad>): seq<Action>
  {
    if |cities| == 0 then []
    else
      [Search(p.phrase, cities[0].name)]
      + AdLoop(p, cities[0], words, users, search(p.phrase, cities[0].name))
      + CityLoop(p, cities[1..], words, users, search)
  }

  /** The words loaded for a phrase. */
  function WordsFor(p: PhraseRow, wordQuery: int -> seq<WordRow>): seq<string>
  {
    ExcludedWords(wordQuery(p.id))
  }

  /** The outer `for row_of_search_phrases` loop: load the phrase's words
      once, run every city, commit. */
  function PhraseLoop(phrases: seq<PhraseRow>, cities: seq<CityRow>,
                      wordQuery: int -> seq<WordRow>, search: (string, string) -> seq<Ad>,
                      users: seq<string>): seq<Action>
  {
    if |phrases| == 0 then []
    else
      [LoadWords(phrases[0].id)]
      + CityLoop(phrases[0], cities, WordsFor(phrases[0], wordQuery), users, search)
      + [Commit]
      + PhraseLoop(phrases[1..], cities, wordQuery, search, users)
  }

  /** `start_parse` with the phrase and city tables already read. */
  function StartParse(phrases: seq<PhraseRow>, cities: seq<CityRow>,
                      wordQuery: int -> seq<WordRow>, search: (string, string) -> seq<Ad>,
                      users: seq<string>): seq<Action>
  {
    PhraseLoop(phrases, cities, wordQuery, search, users)
  }

  // ---------------------------------------------------------------------
  // Views of a log
  // ---------------------------------------------------------------------

  /** What one action contributes to each view of a log. */
  function SearchOf(a: Action): seq<(string, string)>
  {
    if a.Search? then [(a.phrase, a.city)] else []
  }

  function LoadOf(a: Action): seq<int>
  {
    if a.LoadWords? then [a.phraseId] else []
  }

  function CommitOf(a: Action): seq<Action>
  {
    if a.Commit? then [a] else []
  }

  function StoreOf(a: Action): seq<Insert>
  {
    if a.Store? then [a.row] else []
  }

  /** The crawls of a log, as (phrase, city name) pairs. */
  function Searches(log: seq<Action>): seq<(string, string)>
  {
    Seqs.ConcatMap(SearchOf, log)
  }

  /** The phrase ids whose words a log loads. */
  function WordLoads(log: seq<Action>): seq<int>
  {
    Seqs.ConcatMap(LoadOf, log)
  }

  /** The number of commits in a log. */
  function Commits(log: seq<Action>): nat
  {
    |Seqs.ConcatMap(CommitOf, log)|
  }

  /** The rows a log inserts. */
  function Stores(log: seq<Action>): seq<Insert>
  {
    Seqs.ConcatMap(StoreOf, log)
  }

  lemma ViewsAppend(a: seq<Action>, b: seq<Action>)
    ensures Searches(a + b) == Searches(a) + Searches(b)
    ensures WordLoads(a + b) == WordLoads(a) + WordLoads(b)
    ensures Commits(a + b) == Commits(a) + Commits(b)
    ensures Stores(a + b) == Stores(a) + Stores(b)
  {
    Seqs.ConcatMapAppend(SearchOf, a, b);
    Seqs.ConcatMapAppend(LoadOf, a, b);
    Seqs.ConcatMapAppend(CommitOf, a, b);
    Seqs.ConcatMapAppend(StoreOf, a, b);
  }

  /** The ads kept from one crawl, in crawl order: the reference filter. */
  function Kept(words: seq<string>, users: seq<string>, ads: seq<Ad>): (kept: seq<Ad>)
    ensures |kept| <= |ads|
  {
    if |ads| == 0 then []
    else (if KeepAd(words, users, ads[0]) then [ads[0]] else []) + Kept(words, users, ads[1..])
  }

  /** An ad is in the filtered sequence exactly when it was found and passes
      the keep rule. */
  lemma {:induction false} KeptMembers(words: seq<string>, users: seq<string>, ads: seq<Ad>, ad: Ad)
    ensures ad in Kept(words, users, ads) <==> ad in ads && KeepAd(words, users, ad)
    decreases |ads|
  {
    if |ads| > 0 {
      KeptMembers(words, users, ads[1..], ad);
      assert ads == [ads[0]] + ads[1..];
    }
  }

  /** With empty exclusion lists nothing is filtered out. */
  lemma {:induction false} KeptAllWithoutExclusions(ads: seq<Ad>)
    ensures Kept([], [], ads) == ads
    decreases |ads|
  {
    if |ads| > 0 {
      KeptAllWithoutExclusions(ads[1..]);
      assert ads == [ads[0]] + ads[1..];
    }
  }

  /** The ad loop of one (phrase, city) inserts exactly the kept ads, in
      crawl order, and issues no other action. */
  lemma {:induction false} AdLoopInsertsKept(p: PhraseRow, c: CityRow, words: seq<string>,
                                             users: seq<string>, ads: seq<Ad>)
    ensures |Stores(AdLoop(p, c, words, users, ads))| == |Kept(words, users, ads)|
    ensures forall k :: 0 <= k < |Kept(words, users, ads)| ==>
      Stores(AdLoop(p, c, words, users, ads))[k] == InsertOf(p, c, Kept(words, users, ads)[k])
    ensures Searches(AdLoop(p, c, words, users, ads)) == []
    ensures WordLoads(AdLoop(p, c, words, users, ads)) == []
    ensures Commits(AdLoop(p, c, words, users, ads)) == 0
    decreases |ads|
  {
    if |ads| > 0 {
      var head := if KeepAd(words, users, ads[0]) then [Store(InsertOf(p, c, ads[0]))] else [];
      AdLoopInsertsKept(p, c, words, users, ads[1..]);
      ViewsAppend(head, AdLoop(p, c, words, users, ads[1..]));
      assert Stores(head) == StoreOf(Store(InsertOf(p, c, ads[0]))) || Stores(head) == [];
      assert Searches(head) == [] && WordLoads(head) == [] && Commits(head) == 0 by {
        Seqs.ConcatMapSingle(SearchOf, Store(InsertOf(p, c, ads[0])));
        Seqs.ConcatMapSingle(LoadOf, Store(InsertOf(p, c, ads[0])));
        Seqs.ConcatMapSingle(CommitOf, Store(InsertOf(p, c, ads[0])));
      }
    }
  }

  /** One phrase's city loop crawls every city once, in table order, and
      loads no words and commits nothing. */
  lemma {:induction false} CityLoopSearches(p: PhraseRow, cities: seq<CityRow>, words: seq<string>,
                                            users: seq<string>, search: (string, string) -> seq<Ad>)
    ensures |Searches(CityLoop(p, cities, words, users, search))| == |cities|
    ensures forall j :: 0 <= j < |cities| ==>
      Searches(CityLoop(p, cities, words, users, search))[j] == (p.phrase, cities[j].name)
    ensures WordLoads(CityLoop(p, cities, words, users, search)) == []
    ensures Commits(CityLoop(p, cities, words, users, search)) == 0
    decreases |cities|
  {
    if |cities| > 0 {
      var first := [Search(p.phrase, cities[0].name)];
      var ads := AdLoop(p, cities[0], words, users, search(p.phrase, cities[0].name));
      var rest := CityLoop(p, cities[1..], words, users, search);
      AdLoopInsertsKept(p, cities[0], words, users, search(p.phrase, cities[0].name));
      CityLoopSearches(p, cities[1..], words, users, search);
      ViewsAppend(first, ads);
      ViewsAppend(first + ads, rest);
      assert Searches(first) == [(p.phrase, cities[0].name)];
    }
  }

  /** One iteration of the outer loop, seen through any view of the log:
      the phrase's word load, its cities, its commit, then the remaining
      phrases. */
  lemma PhraseSplit<B>(f: Action -> seq<B>, phrases: seq<PhraseRow>, cities: seq<CityRow>,
      wordQuery: int -> seq<WordRow>, search: (string, string) -> seq<Ad>, users: seq<string>)
    requires |phrases| > 0
    ensures Seqs.ConcatMap(f, PhraseLoop(phrases, cities, wordQuery, search, users))
      == f(LoadWords(phrases[0].id))
         + Seqs.ConcatMap(f, CityLoop(phrases[0], cities, WordsFor(phrases[0], wordQuery), users, search))
         + f(Commit)
         + Seqs.ConcatMap(f, PhraseLoop(phrases[1..], cities, wordQuery, search, users))
  {
    var p := phrases[0];
    var load, commit := [LoadWords(p.id)], [Commit];
    var cityPart := CityLoop(p, cities, WordsFor(p, wordQuery), users, search);
    var rest := PhraseLoop(phrases[1..], cities, wordQuery, search, users);
    assert PhraseLoop(phrases, cities, wordQuery, search, users) == load + cityPart + commit + rest;
    Seqs.ConcatMapAppend4(f, load, cityPart, commit, rest);
    Seqs.ConcatMapSingle(f, LoadWords(p.id));
    Seqs.ConcatMapSingle(f, Commit);
  }

  /** The same for a view to which word loads and commits contribute
      nothing: the first phrase's cities, then the remaining phrases. */
  lemma PhraseSplitQuiet<B>(f: Action -> seq<B>, phrases: seq<PhraseRow>, cities: seq<CityRow>,
      wordQuery: int -> seq<WordRow>, search: (string, string) -> seq<Ad>, users: seq<string>)
    requires |phrases| > 0
    requires f(LoadWords(phrases[0].id)) == [] && f(Commit) == []
    ensures Seqs.ConcatMap(f, PhraseLoop(phrases, cities, wordQuery, search, users))
      == Seqs.ConcatMap(f, CityLoop(phrases[0], cities, WordsFor(phrases[0], wordQuery), users, search))
         + Seqs.ConcatMap(f, PhraseLoop(phrases[1..], cities, wordQuery, search, users))
  {
    PhraseSplit(f, phrases, cities, wordQuery, search, users);
  }

  /** There is one crawl per (phrase, city) pair. */
  lemma {:induction false} SearchCount(phrases: seq<PhraseRow>, cities: seq<CityRow>,
                                       wordQuery: int -> seq<WordRow>,
                                       search: (string, string) -> seq<Ad>, users: seq<string>)
    ensures |Searches(StartParse(phrases, cities, wordQuery, search, users))| == |phrases| * |cities|
    decreases |phrases|
  {
    if |phrases| > 0 {
      PhraseSplitQuiet(SearchOf, phrases, cities, wordQuery, search, users);
      CityLoopSearches(phrases[0], cities, WordsFor(phrases[0], wordQuery), users, search);
      SearchCount(phrases[1..], cities, wordQuery, search, users);
      RowMajorStep(|phrases| - 1, |cities|, 0);
    }
  }

  /** Arithmetic of the phrase-major numbering of (phrase, city) pairs. */
  lemma RowMajorStep(i: nat, width: nat, j: nat)
    ensures (i + 1) * width == width + i * width
    ensures (i + 1) * width + j == width + (i * width + j)
  {
  }

  /** Where the crawls of phrase `i` start: after `i` rows of `width` cities. */
  function RowStart(i: nat, width: nat): nat
  {
    if i == 0 then 0 else width + RowStart(i - 1, width)
  }

  lemma {:induction false} RowStartIsProduct(i: nat, width: nat)
    ensures RowStart(i, width) == i * width
    decreases i
  {
    if i > 0 {
      RowStartIsProduct(i - 1, width);
      RowMajorStep(i - 1, width, 0);
    }
  }

  /** The crawls of the outer loop: the first phrase's, one per city in
      table order, then those of the remaining phrases. */
  lemma FirstPhraseSearches(phrases: seq<PhraseRow>, cities: seq<CityRow>,
                            wordQuery: int -> seq<WordRow>,
                            search: (string, string) -> seq<Ad>, users: seq<string>)
    requires |phrases| > 0
    ensures var head := Searches(CityLoop(phrases[0], cities, WordsFor(phrases[0], wordQuery), users, search));
      && Searches(PhraseLoop(phrases, cities, wordQuery, search, users))
         == head + Searches(PhraseLoop(phrases[1..], cities, wordQuery, search, users))
      && |head| == |cities|
      && forall j :: 0 <= j < |cities| ==> head[j] == (phrases[0].phrase, cities[j].name)
  {
    PhraseSplitQuiet(SearchOf, phrases, cities, wordQuery, search, users);
    CityLoopSearches(phrases[0], cities, WordsFor(phrases[0], wordQuery), users, search);
  }

  /** One row of the reference crawl order: phrase `p` in every city, in
      table order. */
  function SearchPairs(p: PhraseRow, cities: seq<CityRow>): (row: seq<(string, string)>)
    ensures |row| == |cities|
    ensures forall j :: 0 <= j < |cities| ==> row[j] == (p.phrase, cities[j].name)
  {
    seq(|cities|, j requires 0 <= j < |cities| => (p.phrase, cities[j].name))
  }

  /** The reference crawl order: phrases outer, cities inner. */
  function SearchRows(phrases: seq<PhraseRow>, cities: seq<CityRow>): seq<(string, string)>
  {
    if |phrases| == 0 then [] else SearchPairs(phrases[0], cities) + SearchRows(phrases[1..], cities)
  }

  /** `start_parse` crawls exactly the reference order. */
  lemma {:induction false} SearchesInOrder(phrases: seq<PhraseRow>, cities: seq<CityRow>,
                                           wordQuery: int -> seq<WordRow>,
                                           search: (string, string) -> seq<Ad>, users: seq<string>)
    ensures Searches(StartParse(phrases, cities, wordQuery, search, users)) == SearchRows(phrases, cities)
    decreases |phrases|
  {
    if |phrases| > 0 {
      FirstPhraseSearches(phrases, cities, wordQuery, search, users);
      SearchesInOrder(phrases[1..], cities, wordQuery, search, users);
      assert Searches(CityLoop(phrases[0], cities, WordsFor(phrases[0], wordQuery), users, search))
          == SearchPairs(phrases[0], cities);
    }
  }

  /** Entry `RowStart(i) + j` of the reference order is phrase `i` in city `j`. */
  lemma {:induction false} SearchRowsAt(phrases: seq<PhraseRow>, cities: seq<CityRow>, i: nat, j: nat)
    requires i < |phrases| && j < |cities|
    ensures RowStart(i, |cities|) + j < |SearchRows(phrases, cities)|
    ensures SearchRows(phrases, cities)[RowStart(i, |cities|) + j] == (phrases[i].phrase, cities[j].name)
    decreases i
  {
    var head := SearchPairs(phrases[0], cities);
    var tail := SearchRows(phrases[1..], cities);
    if i == 0 {
      assert (head + tail)[j] == head[j];
    } else {
      var k := RowStart(i - 1, |cities|) + j;
      SearchRowsAt(phrases[1..], cities, i - 1, j);
      assert phrases[1..][i - 1] == phrases[i];
      assert (head + tail)[|head| + k] == tail[k];
    }
  }

  /** Phrases run outer and cities inner: crawl number `i * |cities| + j`
      is phrase `i` in city `j`. */
  lemma SearchOrder(phrases: seq<PhraseRow>, cities: seq<CityRow>,
                    wordQuery: int -> seq<WordRow>,
                    search: (string, string) -> seq<Ad>, users: seq<string>,
                    i: nat, j: nat)
    requires i < |phrases| && j < |cities|
    ensures i * |cities| + j < |Searches(StartParse(phrases, cities, wordQuery, search, users))|
    ensures Searches(StartParse(phrases, cities, wordQuery, search, users))[i * |cities| + j]
      == (phrases[i].phrase, cities[j].name)
  {
    SearchesInOrder(phrases, cities, wordQuery, search, users);
    SearchRowsAt(phrases, cities, i, j);
    RowStartIsProduct(i, |cities|);
  }

  /** Excluded words are loaded once per phrase, in table order, and every
      phrase ends with one commit. */
  lemma {:induction false} LoadsAndCommits(phrases: seq<PhraseRow>, cities: seq<CityRow>,
                                           wordQuery: int -> seq<WordRow>,
                                           search: (string, string) -> seq<Ad>, users: seq<string>)
    ensures |WordLoads(StartParse(phrases, cities, wordQuery, search, users))| == |phrases|
    ensures forall i :: 0 <= i < |phrases| ==>
      WordLoads(StartParse(phrases, cities, wordQuery, search, users))[i] == phrases[i].id
    ensures Commits(StartParse(phrases, cities, wordQuery, search, users)) == |phrases|
    decreases |phrases|
  {
    if |phrases| > 0 {
      PhraseSplit(LoadOf, phrases, cities, wordQuery, search, users);
      PhraseSplit(CommitOf, phrases, cities, wordQuery, search, users);
      CityLoopSearches(phrases[0], cities, WordsFor(phrases[0], wordQuery), users, search);
      LoadsAndCommits(phrases[1..], cities, wordQuery, search, users);
    }
  }

  // ---------------------------------------------------------------------
  // Which rows are inserted
  // ---------------------------------------------------------------------

  /** The inserts for ads found for phrase `p` in city `c`, one per ad, in
      order. */
  function InsertsOf(p: PhraseRow, c: CityRow, ads: seq<Ad>): (rows: seq<Insert>)
    ensures |rows| == |ads|
    ensures forall k :: 0 <= k < |ads| ==> rows[k] == InsertOf(p, c, ads[k])
  {
    seq(|ads|, k requires 0 <= k < |ads| => InsertOf(p, c, ads[k]))
  }

  /** Reference order of one phrase's inserts: city by city in table order,
      each city's kept ads in crawl order. */
  function CityInserts(p: PhraseRow, cities: seq<CityRow>, words: seq<string>, users: seq<string>,
                       search: (string, string) -> seq<Ad>): seq<Insert>
  {
    if |cities| == 0 then []
    else InsertsOf(p, cities[0], Kept(words, users, search(p.phrase, cities[0].name)))
         + CityInserts(p, cities[1..], words, users, search)
  }

  /** Reference order of all inserts: phrases outer, cities inner, kept ads
      in crawl order, each phrase with its own excluded words. */
  function RunInserts(phrases: seq<PhraseRow>, cities: seq<CityRow>,
                      wordQuery: int -> seq<WordRow>, search: (string, string) -> seq<Ad>,
                      users: seq<string>): seq<Insert>
  {
    if |phrases| == 0 then []
    else CityInserts(phrases[0], cities, WordsFor(phrases[0], wordQuery), users, search)
         + RunInserts(phrases[1..], cities, wordQuery, search, users)
  }

  /** The inserts of one (phrase, city) pair are the inserts of its kept ads. */
  lemma AdLoopStoresKept(p: PhraseRow, c: CityRow, words: seq<string>, users: seq<string>, ads: seq<Ad>)
    ensures Stores(AdLoop(p, c, words, users, ads)) == InsertsOf(p, c, Kept(words, users, ads))
  {
    AdLoopInsertsKept(p, c, words, users, ads);
  }

  lemma {:induction false} CityLoopStoresInOrder(p: PhraseRow, cities: seq<CityRow>, words: seq<string>,
                                                 users: seq<string>, search: (string, string) -> seq<Ad>)
    ensures Stores(CityLoop(p, cities, words, users, search)) == CityInserts(p, cities, words, users, search)
    decreases |cities|
  {
    if |cities| > 0 {
      var first := [Search(p.phrase, cities[0].name)];
      var ads := AdLoop(p, cities[0], words, users, search(p.phrase, cities[0].name));
      var rest := CityLoop(p, cities[1..], words, users, search);
      Seqs.ConcatMapAppend(StoreOf, first, ads);
      Seqs.ConcatMapAppend(StoreOf, first + ads, rest);
      assert Stores(first) == [];
      AdLoopStoresKept(p, cities[0], words, users, search(p.phrase, cities[0].name));
      CityLoopStoresInOrder(p, cities[1..], words, users, search);
    }
  }

  /** `start_parse` inserts exactly the reference sequence: phrases outer,
      cities inner, kept ads in crawl order. An ad found twice is inserted
      twice. */
  lemma {:induction false} StoresInOrder(phrases: seq<PhraseRow>, cities: seq<CityRow>,
                                         wordQuery: int -> seq<WordRow>,
                                         search: (string, string) -> seq<Ad>, users: seq<string>)
    ensures Stores(StartParse(phrases, cities, wordQuery, search, users))
         == RunInserts(phrases, cities, wordQuery, search, users)
    decreases |phrases|
  {
    if |phrases| > 0 {
      PhraseSplitQuiet(StoreOf, phrases, cities, wordQuery, search, users);
      CityLoopStoresInOrder(phrases[0], cities, WordsFor(phrases[0], wordQuery), users, search);
      StoresInOrder(phrases[1..], cities, wordQuery, search, users);
    }
  }

  /** `row` is the insert of some kept ad among `ads`. */
  predicate FromAds(p: PhraseRow, c: CityRow, words: seq<string>, users: seq<string>,
                    ads: seq<Ad>, row: Insert)
  {
    exists ad :: ad in ads && KeepAd(words, users, ad) && row == InsertOf(p, c, ad)
  }

  /** `row` is the insert of some kept ad found for phrase `p` in one of
      `cities`. */
  predicate FromCities(p: PhraseRow, cities: seq<CityRow>, words: seq<string>, users: seq<string>,
                       search: (string, string) -> seq<Ad>, row: Insert)
  {
    exists c :: c in cities && FromAds(p, c, words, users, search(p.phrase, c.name), row)
  }

  /** The ad loop of one (phrase, city) inserts a row exactly when it is the
      insert of a found ad that passes the keep rule. */
  lemma AdLoopStores(p: PhraseRow, c: CityRow, words: seq<string>,
                     users: seq<string>, ads: seq<Ad>, row: Insert)
    ensures row in Stores(AdLoop(p, c, words, users, ads)) <==> FromAds(p, c, words, users, ads, row)
  {
    var kept := Kept(words, users, ads);
    AdLoopStoresKept(p, c, words, users, ads);
    if row in InsertsOf(p, c, kept) {
      var k :| 0 <= k < |kept| && InsertsOf(p, c, kept)[k] == row;
      KeptMembers(words, users, ads, kept[k]);
    }
    if FromAds(p, c, words, users, ads, row) {
      var ad :| ad in ads && KeepAd(words, users, ad) && row == InsertOf(p, c, ad);
      KeptMembers(words, users, ads, ad);
      var k :| 0 <= k < |kept| && kept[k] == ad;
      assert InsertsOf(p, c, kept)[k] == row;
    }
  }

  lemma {:induction false} CityLoopStores(p: PhraseRow, cities: seq<CityRow>, words: seq<string>,
                                          users: seq<string>, search: (string, string) -> seq<Ad>,
                                          row: Insert)
    ensures row in Stores(CityLoop(p, cities, words, users, search))
      <==> FromCities(p, cities, words, users, search, row)
    decreases |cities|
  {
    if |cities| > 0 {
      var first := [Search(p.phrase, cities[0].name)];
      var ads := AdLoop(p, cities[0], words, users, search(p.phrase, cities[0].name));
      var rest := CityLoop(p, cities[1..], words, users, search);
      Seqs.ConcatMapAppend(StoreOf, first, ads);
      Seqs.ConcatMapAppend(StoreOf, first + ads, rest);
      assert Stores(first) == [];
      AdLoopStores(p, cities[0], words, users, search(p.phrase, cities[0].name), row);
      CityLoopStores(p, cities[1..], words, users, search, row);
      assert cities == [cities[0]] + cities[1..];
      if FromCities(p, cities, words, users, search, row) {
        var c :| c in cities && FromAds(p, c, words, users, search(p.phrase, c.name), row);
        if c != cities[0] {
          assert c in cities[1..];
        }
      }
    }
  }

  /** `start_parse` inserts exactly the rows of ads that were found for some
      phrase in some city and pass the keep rule under that phrase's words:
      nothing is inserted that was not found or not kept, and every found
      and kept ad is inserted. */
  lemma {:induction false} StoredRows(phrases: seq<PhraseRow>, cities: seq<CityRow>,
                                      wordQuery: int -> seq<WordRow>,
                                      search: (string, string) -> seq<Ad>, users: seq<string>,
                                      row: Insert)
    ensures row in Stores(StartParse(phrases, cities, wordQuery, search, users))
      <==> exists p, c, ad :: p in phrases && c in cities && ad in search(p.phrase, c.name)
             && KeepAd(WordsFor(p, wordQuery), users, ad) && row == InsertOf(p, c, ad)
    decreases |phrases|
  {
    if |phrases| > 0 {
      var p0 := phrases[0];
      PhraseSplitQuiet(StoreOf, phrases, cities, wordQuery, search, users);
      CityLoopStores(p0, cities, WordsFor(p0, wordQuery), users, search, row);
      StoredRows(phrases[1..], cities, wordQuery, search, users, row);
      assert phrases == [p0] + phrases[1..];
      if exists p, c, ad :: p in phrases && c in cities && ad in search(p.phrase, c.name)
           && KeepAd(WordsFor(p, wordQuery), users, ad) && row == InsertOf(p, c, ad) {
        var p, c, ad :| p in phrases && c in cities && ad in search(p.phrase, c.name)
          && KeepAd(WordsFor(p, wordQuery), users, ad) && row == InsertOf(p, c, ad);
        if p == p0 {
          assert FromAds(p, c, WordsFor(p, wordQuery), users, search(p.phrase, c.name), row);
          assert FromCities(p0, cities, WordsFor(p0, wordQuery), users, search, row);
        } else {
          assert p in phrases[1..];
        }
      }
      if row in Stores(CityLoop(p0, cities, WordsFor(p0, wordQuery), users, search)) {
        var c :| c in cities && FromAds(p0, c, WordsFor(p0, wordQuery), users, search(p0.phrase, c.name), row);
        var ad :| ad in search(p0.phrase, c.name) && KeepAd(WordsFor(p0, wordQuery), users, ad)
          && row == InsertOf(p0, c, ad);
        assert p0 in phrases;
      }
    }
  }

  /** With no excluded words for any phrase and no excluded sellers, every
      ad found for every (phrase, city) pair is inserted. */
  lemma NoExclusionsStoresAll(phrases: seq<PhraseRow>, cities: seq<CityRow>,
                              wordQuery: int -> seq<WordRow>,
                              search: (string, string) -> seq<Ad>,
                              p: PhraseRow, c: CityRow, ad: Ad)
    requires forall id :: wordQuery(id) == []
    requires p in phrases && c in cities && ad in search(p.phrase, c.name)
    ensures InsertOf(p, c, ad) in Stores(StartParse(phrases, cities, wordQuery, search, []))
  {
    assert WordsFor(p, wordQuery) == [];
    StoredRows(phrases, cities, wordQuery, search, [], InsertOf(p, c, ad));
  }
}
