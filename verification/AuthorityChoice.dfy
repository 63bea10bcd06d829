/**
`select_authoritative`: one authoritative checkout per repository, the other checkouts of it as
duplicates, and everything that is not the root of a repository as unclassified. Case folding is a
parameter.
*/
module AuthorityChoice {
  import opened Wrappers
  import opened Ordering

  datatype Candidate = Candidate(path: string, relativePath: string, repository: Option<string>, root: Option<string>)

  /** Less is better: location rank, then path depth, then folded path. */
  datatype Score = Score(rank: nat, depth: nat, folded: string)

  type Fold = string -> string

  /** Cut at every slash. */
  function Split(s: string): (pieces: seq<string>)
    ensures |pieces| >= 1
  {
    if s == [] then [[]]
    else
      var later := Split(s[1..]);
      if s[0] == '/' then [[]] + later else [[s[0]] + later[0]] + later[1..]
  }

  /** Cut at the first slash only. */
  function SplitOnce(s: string): (pieces: seq<string>)
    ensures 1 <= |pieces| <= 2
  {
    if s == [] then [[]]
    else if s[0] == '/' then [[], s[1..]]
    else
      var later := SplitOnce(s[1..]);
      [[s[0]] + later[0]] + later[1..]
  }

  function AuthorityScore(fold: Fold, c: Candidate): Score {
    var pieces := Split(c.relativePath);
    var remote := SplitOnce(if c.repository.Some? then c.repository.value else []);
    var ownerContainer := |remote| == 2 && fold(pieces[0]) == fold(remote[0]);
    var mirrorsRemote := ownerContainer && |pieces| == 2 && fold(pieces[1]) == fold(remote[1]);
    Score(if mirrorsRemote then 0 else if ownerContainer then 1 else 2, |pieces|, fold(c.relativePath))
  }

  // ----- what the location rank means

  function Join(pieces: seq<string>): string
    requires pieces != []
  {
    if |pieces| == 1 then pieces[0] else pieces[0] + ['/'] + Join(pieces[1..])
  }

  ghost predicate SlashFree(pieces: seq<string>) {
    forall i :: 0 <= i < |pieces| ==> '/' !in pieces[i]
  }

  lemma {:induction false} SplitIsExact(s: string)
    ensures Join(Split(s)) == s && SlashFree(Split(s))
  {
    if s != [] {
      SplitIsExact(s[1..]);
      assert s == [s[0]] + s[1..];
    }
  }

  lemma SplitCons(c: char, s: string)
    ensures Split([c] + s) == if c == '/' then [[]] + Split(s) else [[c] + Split(s)[0]] + Split(s)[1..]
  {
    assert ([c] + s)[1..] == s;
  }

  lemma JoinCons(c: char, pieces: seq<string>)
    requires pieces != []
    ensures Join([[c] + pieces[0]] + pieces[1..]) == [c] + Join(pieces)
  {
    assert ([[c] + pieces[0]] + pieces[1..])[1..] == pieces[1..];
  }

  lemma {:induction false} SplitIsUnique(pieces: seq<string>)
    requires pieces != [] && SlashFree(pieces)
    ensures Split(Join(pieces)) == pieces
    decreases |pieces|, |pieces[0]|
  {
    var first, later := pieces[0], pieces[1..];
    assert pieces == [first] + later;
    if first != [] {
      var shorter := [first[1..]] + later;
      assert SlashFree(shorter) by {
        assert forall i :: 0 < i < |pieces| ==> shorter[i] == pieces[i];
      }
      SplitIsUnique(shorter);
      assert first == [first[0]] + first[1..] && shorter[1..] == later;
      JoinCons(first[0], shorter);
      SplitCons(first[0], Join(shorter));
    } else if later != [] {
      SplitIsUnique(later);
      assert Join(pieces) == ['/'] + Join(later);
      SplitCons('/', Join(later));
    }
  }

  lemma {:induction false} SplitOnceIsExact(s: string)
    ensures |SplitOnce(s)| == 2 ==> s == SplitOnce(s)[0] + ['/'] + SplitOnce(s)[1] && '/' !in SplitOnce(s)[0]
  {
    if s != [] && s[0] != '/' {
      SplitOnceIsExact(s[1..]);
      assert s == [s[0]] + s[1..];
    } else if s != [] {
      assert s == [] + ['/'] + s[1..];
    }
  }

  lemma {:induction false} SplitOnceIsUnique(owner: string, rest: string)
    requires '/' !in owner
    ensures SplitOnce(owner + ['/'] + rest) == [owner, rest]
  {
    var s := owner + ['/'] + rest;
    if owner == [] {
      assert s[1..] == rest;
    } else {
      SplitOnceIsUnique(owner[1..], rest);
      assert s[1..] == owner[1..] + ['/'] + rest;
      assert owner == [owner[0]] + owner[1..];
    }
  }

  /** The path is `owner/name`, and so is the repository, up to folding. */
  ghost predicate Mirrors(fold: Fold, c: Candidate, owner: string, name: string,
                          remoteOwner: string, remoteName: string)
  {
    && c.relativePath == owner + ['/'] + name && '/' !in owner && '/' !in name
    && c.repository == Some(remoteOwner + ['/'] + remoteName) && '/' !in remoteOwner
    && fold(owner) == fold(remoteOwner) && fold(name) == fold(remoteName)
  }

  ghost predicate MirrorsRemote(fold: Fold, c: Candidate) {
    exists o, n, ro, rn :: Mirrors(fold, c, o, n, ro, rn)
  }

  /** The path starts in the directory of the remote's owner, up to folding. */
  ghost predicate Houses(fold: Fold, c: Candidate, owner: string, remoteOwner: string, remoteName: string) {
    && '/' !in owner && (c.relativePath == owner || owner + ['/'] <= c.relativePath)
    && c.repository == Some(remoteOwner + ['/'] + remoteName) && '/' !in remoteOwner
    && fold(owner) == fold(remoteOwner)
  }

  ghost predicate InOwnersDirectory(fold: Fold, c: Candidate) {
    exists o, ro, rn :: Houses(fold, c, o, ro, rn)
  }

  /** Number of directories on the path, the checkout's own included. */
  function PathDepth(c: Candidate): nat {
    multiset(c.relativePath)['/'] + 1
  }

  /** The best rank goes exactly to the checkouts whose path mirrors their remote. */
  lemma MirrorRanksFirst(fold: Fold, c: Candidate)
    ensures AuthorityScore(fold, c).rank == 0 <==> MirrorsRemote(fold, c)
  {
    if AuthorityScore(fold, c).rank == 0 {
      FirstRankMirrors(fold, c);
    }
    if o, n, ro, rn :| Mirrors(fold, c, o, n, ro, rn) {
      SplitOnceIsUnique(ro, rn);
      assert Join([o, n]) == o + ['/'] + n;
      SplitIsUnique([o, n]);
    }
  }

  lemma FirstRankMirrors(fold: Fold, c: Candidate)
    requires AuthorityScore(fold, c).rank == 0
    ensures MirrorsRemote(fold, c)
  {
    var pieces := Split(c.relativePath);
    var pair := SplitOnce(if c.repository.Some? then c.repository.value else []);
    SplitIsExact(c.relativePath);
    assert Join(pieces) == pieces[0] + ['/'] + pieces[1];
    SplitOnceIsExact(c.repository.value);
    assert Mirrors(fold, c, pieces[0], pieces[1], pair[0], pair[1]);
  }

  lemma {:induction false} FirstPiece(s: string)
    ensures '/' !in Split(s)[0]
    ensures s == Split(s)[0] || Split(s)[0] + ['/'] <= s
  {
    if s != [] && s[0] != '/' {
      FirstPiece(s[1..]);
      assert s == [s[0]] + s[1..];
    }
  }

  lemma {:induction false} FirstPieceIs(s: string, owner: string)
    requires '/' !in owner && (s == owner || owner + ['/'] <= s)
    ensures Split(s)[0] == owner
  {
    if owner != [] {
      assert s[0] == owner[0] && owner == [owner[0]] + owner[1..];
      assert s == owner || s[1..][..|owner|] == owner[1..] + ['/'] by {
        if s != owner {
          assert s[..|owner| + 1] == owner + ['/'];
          assert s[1..][..|owner|] == s[..|owner| + 1][1..];
        }
      }
      FirstPieceIs(s[1..], owner[1..]);
    }
  }

  /** The first two ranks go exactly to the checkouts in the directory of their remote's owner. */
  lemma OwnersDirectoryRanksNext(fold: Fold, c: Candidate)
    ensures AuthorityScore(fold, c).rank <= 1 <==> InOwnersDirectory(fold, c)
  {
    var first, pair := Split(c.relativePath)[0], SplitOnce(if c.repository.Some? then c.repository.value else []);
    if AuthorityScore(fold, c).rank <= 1 {
      FirstPiece(c.relativePath);
      SplitOnceIsExact(c.repository.value);
      assert Houses(fold, c, first, pair[0], pair[1]);
    }
    if o, ro, rn :| Houses(fold, c, o, ro, rn) {
      FirstPieceIs(c.relativePath, o);
      SplitOnceIsUnique(ro, rn);
    }
  }

  lemma {:induction false} DepthCounts(s: string)
    ensures |Split(s)| == multiset(s)['/'] + 1
  {
    if s != [] {
      DepthCounts(s[1..]);
      assert s == [s[0]] + s[1..];
    }
  }

  // ----- order of preference

  predicate ScoreLe(a: Score, b: Score) {
    a.rank < b.rank || (a.rank == b.rank && (a.depth < b.depth || (a.depth == b.depth && StrLe(a.folded, b.folded))))
  }

  function ByScore(fold: Fold): (Candidate, Candidate) -> bool {
    (a: Candidate, b: Candidate) => ScoreLe(AuthorityScore(fold, a), AuthorityScore(fold, b))
  }

  function ByPath(fold: Fold): (Candidate, Candidate) -> bool {
    (a: Candidate, b: Candidate) => StrLe(fold(a.relativePath), fold(b.relativePath))
  }

  predicate Unclassified(c: Candidate) {
    c.repository.None? || c.root != Some(c.path)
  }

  function Key(fold: Fold, c: Candidate): string
    requires !Unclassified(c)
  {
    fold(c.repository.value)
  }

  // ----- as a function of the list

  function Group(fold: Fold, cs: seq<Candidate>, key: string): seq<Candidate> {
    if cs == [] then []
    else
      var front := Group(fold, cs[..|cs| - 1], key);
      var c := cs[|cs| - 1];
      if !Unclassified(c) && Key(fold, c) == key then front + [c] else front
  }

  function Others(cs: seq<Candidate>): seq<Candidate> {
    if cs == [] then []
    else
      var front := Others(cs[..|cs| - 1]);
      if Unclassified(cs[|cs| - 1]) then front + [cs[|cs| - 1]] else front
  }

  function Keys(fold: Fold, cs: seq<Candidate>): set<string> {
    set c | c in cs && !Unclassified(c) :: Key(fold, c)
  }

  function Ranked(fold: Fold, cs: seq<Candidate>, key: string): seq<Candidate> {
    Sort(Group(fold, cs, key), ByScore(fold))
  }

  datatype Choice = Choice(authoritative: seq<Candidate>, duplicates: seq<(Candidate, Candidate)>)

  function PairUp(cs: seq<Candidate>, selected: Candidate): seq<(Candidate, Candidate)> {
    seq(|cs|, i requires 0 <= i < |cs| => (cs[i], selected))
  }

  /** One repository's checkouts, best first: the best is chosen, the others are its duplicates. */
  function Add(r: Choice, ranked: seq<Candidate>): Choice {
    if ranked == [] then r
    else Choice(r.authoritative + [ranked[0]], r.duplicates + PairUp(ranked[1..], ranked[0]))
  }

  /** The choice for a list of repositories, one after the other. */
  function ChoiceFor(fold: Fold, cs: seq<Candidate>, keys: seq<string>): Choice {
    if keys == [] then Choice([], [])
    else Add(ChoiceFor(fold, cs, keys[..|keys| - 1]), Ranked(fold, cs, keys[|keys| - 1]))
  }

  function Select(fold: Fold, cs: seq<Candidate>): (Choice, seq<Candidate>) {
    (ChoiceFor(fold, cs, SortedNames(Keys(fold, cs))), Sort(Others(cs), ByPath(fold)))
  }

  // ----- the loops

  method SelectAuthoritative(fold: Fold, candidates: seq<Candidate>)
    returns (authoritative: seq<Candidate>, duplicates: seq<(Candidate, Candidate)>, unclassified: seq<Candidate>)
    ensures (Choice(authoritative, duplicates), unclassified) == Select(fold, candidates)
  {
    var grouped: map<string, seq<Candidate>>;
    grouped, unclassified := GroupAll(fold, candidates);
    authoritative, duplicates := ChooseAll(fold, candidates, SortedNames(grouped.Keys), grouped);
    unclassified := Sort(unclassified, ByPath(fold));
  }

  method ChooseAll(fold: Fold, ghost cs: seq<Candidate>, keys: seq<string>, grouped: map<string, seq<Candidate>>)
    returns (authoritative: seq<Candidate>, duplicates: seq<(Candidate, Candidate)>)
    requires forall key :: key in keys ==> key in grouped && grouped[key] == Group(fold, cs, key) != []
    ensures Choice(authoritative, duplicates) == ChoiceFor(fold, cs, keys)
  {
    authoritative, duplicates := [], [];
    for i := 0 to |keys|
      invariant Choice(authoritative, duplicates) == ChoiceFor(fold, cs, keys[..i])
    {
      assert keys[i] in keys;
      authoritative, duplicates := ChooseOne(fold, cs, keys[i], grouped[keys[i]], authoritative, duplicates);
      assert keys[..i + 1][..i] == keys[..i];
    }
    assert keys[..|keys|] == keys;
  }

  method ChooseOne(fold: Fold, ghost cs: seq<Candidate>, key: string, group: seq<Candidate>,
                   authoritative: seq<Candidate>, duplicates: seq<(Candidate, Candidate)>)
    returns (more: seq<Candidate>, moreDuplicates: seq<(Candidate, Candidate)>)
    requires group == Group(fold, cs, key) && group != []
    ensures Choice(more, moreDuplicates) == Add(Choice(authoritative, duplicates), Ranked(fold, cs, key))
  {
    var ordered := Sort(group, ByScore(fold));
    RankedIsNonempty(fold, cs, key);
    var selected := ordered[0];
    more := authoritative + [selected];
    moreDuplicates := duplicates + PairUp(ordered[1..], selected);
  }

  lemma RankedIsNonempty(fold: Fold, cs: seq<Candidate>, key: string)
    requires Group(fold, cs, key) != []
    ensures Ranked(fold, cs, key) != []
  {
    ByScoreIsPreorder(fold);
    SortSorts(Group(fold, cs, key), ByScore(fold));
  }

  /** `grouped` holds every repository's checkouts in the order of the list. */
  ghost predicate Grouping(fold: Fold, cs: seq<Candidate>, grouped: map<string, seq<Candidate>>) {
    && grouped.Keys == Keys(fold, cs)
    && forall key :: Group(fold, cs, key) == if key in grouped then grouped[key] else []
  }

  lemma KeysAfter(fold: Fold, cs: seq<Candidate>, c: Candidate)
    ensures Keys(fold, cs + [c]) == Keys(fold, cs) + if Unclassified(c) then {} else {Key(fold, c)}
  {
    forall d ensures d in cs + [c] <==> d in cs || d == c {
    }
  }

  lemma GroupAfter(fold: Fold, cs: seq<Candidate>, c: Candidate, key: string)
    ensures Group(fold, cs + [c], key) ==
            Group(fold, cs, key) + if !Unclassified(c) && Key(fold, c) == key then [c] else []
  {
    assert (cs + [c])[..|cs|] == cs;
  }

  lemma {:induction false} KeyHasMembers(fold: Fold, cs: seq<Candidate>, key: string)
    ensures Group(fold, cs, key) != [] <==> key in Keys(fold, cs)
  {
    GroupElements(fold, cs, key);
    if Group(fold, cs, key) != [] {
      assert Group(fold, cs, key)[0] in Group(fold, cs, key);
    }
  }

  lemma GroupOne(fold: Fold, cs: seq<Candidate>, c: Candidate, grouped: map<string, seq<Candidate>>)
    requires Grouping(fold, cs, grouped) && !Unclassified(c)
    ensures var key := Key(fold, c);
            Grouping(fold, cs + [c], grouped[key := (if key in grouped then grouped[key] else []) + [c]])
  {
    KeysAfter(fold, cs, c);
    var own := Key(fold, c);
    var after := grouped[own := (if own in grouped then grouped[own] else []) + [c]];
    forall key ensures Group(fold, cs + [c], key) == if key in after then after[key] else [] {
      GroupAfter(fold, cs, c, key);
    }
  }

  lemma GroupNone(fold: Fold, cs: seq<Candidate>, c: Candidate, grouped: map<string, seq<Candidate>>)
    requires Grouping(fold, cs, grouped) && Unclassified(c)
    ensures Grouping(fold, cs + [c], grouped)
  {
    KeysAfter(fold, cs, c);
    forall key ensures Group(fold, cs + [c], key) == Group(fold, cs, key) {
      GroupAfter(fold, cs, c, key);
    }
  }

  method GroupAll(fold: Fold, candidates: seq<Candidate>)
    returns (grouped: map<string, seq<Candidate>>, unclassified: seq<Candidate>)
    ensures Grouping(fold, candidates, grouped)
    ensures forall key :: key in grouped ==> Group(fold, candidates, key) != []
    ensures unclassified == Others(candidates)
  {
    grouped, unclassified := map[], [];
    for i := 0 to |candidates|
      invariant Grouping(fold, candidates[..i], grouped)
      invariant unclassified == Others(candidates[..i])
    {
      var candidate := candidates[i];
      assert candidates[..i + 1] == candidates[..i] + [candidate];
      assert candidates[..i + 1][..i] == candidates[..i];
      if Unclassified(candidate) {
        GroupNone(fold, candidates[..i], candidate, grouped);
        unclassified := unclassified + [candidate];
      } else {
        var key := Key(fold, candidate);
        GroupOne(fold, candidates[..i], candidate, grouped);
        grouped := grouped[key := (if key in grouped then grouped[key] else []) + [candidate]];
      }
    }
    assert candidates[..|candidates|] == candidates;
    forall key ensures key in grouped ==> Group(fold, candidates, key) != [] {
      KeyHasMembers(fold, candidates, key);
    }
  }

  // ----- orders

  lemma ByScoreIsPreorder(fold: Fold)
    ensures TotalPreorder(ByScore(fold))
  {
    var le := ByScore(fold);
    forall a, b ensures le(a, b) || le(b, a) {
      StrLeTotal(fold(a.relativePath), fold(b.relativePath));
    }
    forall a, b, c | le(a, b) && le(b, c) ensures le(a, c) {
      var x, y, z := AuthorityScore(fold, a), AuthorityScore(fold, b), AuthorityScore(fold, c);
      if x.rank == z.rank && x.depth == z.depth {
        StrLeTransitive(x.folded, y.folded, z.folded);
      }
    }
  }

  lemma ByPathIsPreorder(fold: Fold)
    ensures TotalPreorder(ByPath(fold))
  {
    var le := ByPath(fold);
    forall a, b ensures le(a, b) || le(b, a) {
      StrLeTotal(fold(a.relativePath), fold(b.relativePath));
    }
    forall a, b, c | le(a, b) && le(b, c) ensures le(a, c) {
      StrLeTransitive(fold(a.relativePath), fold(b.relativePath), fold(c.relativePath));
    }
  }

  // ----- what is selected

  lemma {:induction false} GroupElements(fold: Fold, cs: seq<Candidate>, key: string)
    ensures forall c :: c in Group(fold, cs, key) <==> c in cs && !Unclassified(c) && Key(fold, c) == key
  {
    if cs != [] {
      GroupElements(fold, cs[..|cs| - 1], key);
      assert cs == cs[..|cs| - 1] + [cs[|cs| - 1]];
    }
  }

  lemma RankedElements(fold: Fold, cs: seq<Candidate>, key: string)
    ensures forall c :: c in Ranked(fold, cs, key) <==> c in cs && !Unclassified(c) && Key(fold, c) == key
    ensures SortedBy(Ranked(fold, cs, key), ByScore(fold))
    ensures multiset(Ranked(fold, cs, key)) == multiset(Group(fold, cs, key))
  {
    GroupElements(fold, cs, key);
    ByScoreIsPreorder(fold);
    SortSorts(Group(fold, cs, key), ByScore(fold));
  }

  /** No other checkout of the same repository scores better. */
  ghost predicate Best(fold: Fold, cs: seq<Candidate>, c: Candidate) {
    && c in cs && !Unclassified(c)
    && forall d :: d in cs && !Unclassified(d) && Key(fold, d) == Key(fold, c) ==>
         ScoreLe(AuthorityScore(fold, c), AuthorityScore(fold, d))
  }

  lemma RankedHeadIsBest(fold: Fold, cs: seq<Candidate>, key: string)
    requires Ranked(fold, cs, key) != []
    ensures Best(fold, cs, Ranked(fold, cs, key)[0]) && Key(fold, Ranked(fold, cs, key)[0]) == key
  {
    var ranked, le := Ranked(fold, cs, key), ByScore(fold);
    RankedElements(fold, cs, key);
    ByScoreIsPreorder(fold);
    assert ranked[0] in ranked;
    forall d | d in ranked ensures le(ranked[0], d) {
      var i :| 0 <= i < |ranked| && ranked[i] == d;
    }
  }

  function KeysOf(fold: Fold, chosen: seq<Candidate>): seq<string>
    requires forall c :: c in chosen ==> !Unclassified(c)
  {
    seq(|chosen|, i requires 0 <= i < |chosen| => (assert chosen[i] in chosen; Key(fold, chosen[i])))
  }

  ghost predicate Paired(fold: Fold, cs: seq<Candidate>, r: Choice) {
    forall d :: d in r.duplicates ==>
      && d.0 in cs && !Unclassified(d.0)
      && d.1 in r.authoritative && !Unclassified(d.1) && Key(fold, d.0) == Key(fold, d.1)
  }

  lemma AddKeepsPairs(fold: Fold, cs: seq<Candidate>, r: Choice, ranked: seq<Candidate>, key: string)
    requires Paired(fold, cs, r) && ranked != []
    requires forall c :: c in ranked ==> c in cs && !Unclassified(c) && Key(fold, c) == key
    ensures Paired(fold, cs, Add(r, ranked))
  {
    var pairs := PairUp(ranked[1..], ranked[0]);
    forall d | d in pairs ensures d.0 in ranked && d.1 == ranked[0] {
      var i :| 0 <= i < |pairs| && pairs[i] == d;
      assert d.0 == ranked[i + 1];
    }
    assert ranked[0] in ranked;
  }

  lemma AddKeepsBest(fold: Fold, cs: seq<Candidate>, r: Choice, ranked: seq<Candidate>)
    requires forall c :: c in r.authoritative ==> Best(fold, cs, c)
    requires ranked != [] && Best(fold, cs, ranked[0])
    ensures var chosen := Add(r, ranked).authoritative;
            && (forall c :: c in chosen ==> Best(fold, cs, c))
            && KeysOf(fold, chosen) == KeysOf(fold, r.authoritative) + [Key(fold, ranked[0])]
  {
    forall c | c in Add(r, ranked).authoritative ensures Best(fold, cs, c) {
      assert c in r.authoritative || c == ranked[0];
    }
  }

  lemma ChooseNext(fold: Fold, cs: seq<Candidate>, r: Choice, key: string)
    requires (forall c :: c in r.authoritative ==> Best(fold, cs, c)) && Paired(fold, cs, r)
    requires key in Keys(fold, cs)
    ensures var next := Add(r, Ranked(fold, cs, key));
            && (forall c :: c in next.authoritative ==> Best(fold, cs, c))
            && KeysOf(fold, next.authoritative) == KeysOf(fold, r.authoritative) + [key]
            && Paired(fold, cs, next)
  {
    KeyHasMembers(fold, cs, key);
    RankedIsNonempty(fold, cs, key);
    RankedHeadIsBest(fold, cs, key);
    AddKeepsBest(fold, cs, r, Ranked(fold, cs, key));
    RankedElements(fold, cs, key);
    AddKeepsPairs(fold, cs, r, Ranked(fold, cs, key), key);
  }

  /** One best checkout per repository, in key order; each duplicate sits beside the choice for its
      own repository. */
  lemma {:induction false} ChoiceIsBest(fold: Fold, cs: seq<Candidate>, keys: seq<string>)
    requires forall key :: key in keys ==> key in Keys(fold, cs)
    ensures var r := ChoiceFor(fold, cs, keys);
            && (forall c :: c in r.authoritative ==> Best(fold, cs, c))
            && KeysOf(fold, r.authoritative) == keys
            && Paired(fold, cs, r)
  {
    if keys != [] {
      var front, key := keys[..|keys| - 1], keys[|keys| - 1];
      assert key in keys && keys == front + [key];
      ChoiceIsBest(fold, cs, front);
      ChooseNext(fold, cs, ChoiceFor(fold, cs, front), key);
    }
  }

  /** `c` is at least as good a checkout as `d`: one that mirrors its remote beats one that does not, one
      in the owner's directory beats one that is not, then fewer directories win, then the smaller
      folded path. */
  ghost predicate Preferred(fold: Fold, c: Candidate, d: Candidate) {
    && (MirrorsRemote(fold, d) ==> MirrorsRemote(fold, c))
    && (InOwnersDirectory(fold, d) ==> InOwnersDirectory(fold, c))
    && (MirrorsRemote(fold, d) == MirrorsRemote(fold, c) && InOwnersDirectory(fold, d) == InOwnersDirectory(fold, c) ==>
          && PathDepth(c) <= PathDepth(d)
          && (PathDepth(c) == PathDepth(d) ==> Lexicographic(fold(c.relativePath), fold(d.relativePath))))
  }

  lemma LeastScoreIsPreferred(fold: Fold, c: Candidate, d: Candidate)
    requires ScoreLe(AuthorityScore(fold, c), AuthorityScore(fold, d))
    ensures Preferred(fold, c, d)
  {
    MirrorRanksFirst(fold, c);
    MirrorRanksFirst(fold, d);
    OwnersDirectoryRanksNext(fold, c);
    OwnersDirectoryRanksNext(fold, d);
    DepthCounts(c.relativePath);
    DepthCounts(d.relativePath);
    StrLeIff(fold(c.relativePath), fold(d.relativePath));
  }

  /** A checkout is the root of a repository with a known remote. */
  predicate IsCheckout(c: Candidate) {
    c.repository.Some? && c.root == Some(c.path)
  }

  /** Two checkouts of the same repository, up to folding. */
  predicate SameRepository(fold: Fold, c: Candidate, d: Candidate) {
    c.repository.Some? && d.repository.Some? && fold(c.repository.value) == fold(d.repository.value)
  }

  /** The candidates that a choice accounts for. */
  function Firsts(pairs: seq<(Candidate, Candidate)>): seq<Candidate> {
    seq(|pairs|, i requires 0 <= i < |pairs| => pairs[i].0)
  }

  function Chosen(r: Choice): multiset<Candidate> {
    multiset(r.authoritative) + multiset(Firsts(r.duplicates))
  }

  function GroupsOf(fold: Fold, cs: seq<Candidate>, keys: seq<string>): multiset<Candidate> {
    if keys == [] then multiset{}
    else GroupsOf(fold, cs, keys[..|keys| - 1]) + multiset(Group(fold, cs, keys[|keys| - 1]))
  }

  lemma AddKeeps(r: Choice, ranked: seq<Candidate>)
    ensures Chosen(Add(r, ranked)) == Chosen(r) + multiset(ranked)
  {
    if ranked != [] {
      var pairs := PairUp(ranked[1..], ranked[0]);
      assert Firsts(r.duplicates + pairs) == Firsts(r.duplicates) + ranked[1..];
      assert ranked == [ranked[0]] + ranked[1..];
    }
  }

  lemma {:induction false} ChoiceKeepsGroups(fold: Fold, cs: seq<Candidate>, keys: seq<string>)
    ensures Chosen(ChoiceFor(fold, cs, keys)) == GroupsOf(fold, cs, keys)
  {
    if keys != [] {
      var front, key := keys[..|keys| - 1], keys[|keys| - 1];
      ChoiceKeepsGroups(fold, cs, front);
      RankedElements(fold, cs, key);
      AddKeeps(ChoiceFor(fold, cs, front), Ranked(fold, cs, key));
    }
  }

  /** One more candidate goes to exactly one group, or to the others. */
  lemma {:induction false} GroupsAfter(fold: Fold, cs: seq<Candidate>, c: Candidate, keys: seq<string>)
    requires NoRepeats(keys)
    ensures GroupsOf(fold, cs + [c], keys) ==
            GroupsOf(fold, cs, keys) + if !Unclassified(c) && Key(fold, c) in keys then multiset{c} else multiset{}
  {
    if keys != [] {
      var front, key := keys[..|keys| - 1], keys[|keys| - 1];
      assert keys == front + [key];
      GroupsAfter(fold, cs, c, front);
      assert (cs + [c])[..|cs|] == cs;
      assert key !in front by {
        assert forall i :: 0 <= i < |front| ==> front[i] == keys[i];
      }
    }
  }

  lemma {:induction false} GroupsAreAll(fold: Fold, cs: seq<Candidate>, keys: seq<string>)
    requires NoRepeats(keys) && forall key :: key in Keys(fold, cs) ==> key in keys
    ensures multiset(cs) == GroupsOf(fold, cs, keys) + multiset(Others(cs))
  {
    if cs == [] {
      NoGroups(fold, keys);
    } else {
      var front, c := cs[..|cs| - 1], cs[|cs| - 1];
      assert cs == front + [c];
      assert forall key :: key in Keys(fold, front) ==> key in Keys(fold, cs);
      GroupsAreAll(fold, front, keys);
      GroupsAfter(fold, front, c, keys);
      assert !Unclassified(c) ==> Key(fold, c) in Keys(fold, cs);
    }
  }

  lemma {:induction false} NoGroups(fold: Fold, keys: seq<string>)
    ensures GroupsOf(fold, [], keys) == multiset{}
  {
    if keys != [] {
      NoGroups(fold, keys[..|keys| - 1]);
    }
  }

  /** Every candidate ends up in exactly one of the three outputs, as often as it occurs. */
  lemma SelectionIsAPartition(fold: Fold, cs: seq<Candidate>)
    ensures var (r, unclassified) := Select(fold, cs);
            && multiset(cs) == multiset(r.authoritative) + multiset(Firsts(r.duplicates)) + multiset(unclassified)
            && (forall c :: c in unclassified ==> Unclassified(c))
            && (forall c :: c in r.authoritative ==> Best(fold, cs, c))
            && KeysOf(fold, r.authoritative) == SortedNames(Keys(fold, cs))
            && Paired(fold, cs, r)
  {
    var keys := SortedNames(Keys(fold, cs));
    ChoiceIsBest(fold, cs, keys);
    ChoiceKeepsGroups(fold, cs, keys);
    GroupsAreAll(fold, cs, keys);
    ByPathIsPreorder(fold);
    SortSorts(Others(cs), ByPath(fold));
    OthersAreUnclassified(cs);
  }

  /** The outputs in plain terms: which candidates are in each, how chosen checkouts compare with the
      others of their repository, that no repository is chosen twice or forgotten, and how the lists are
      ordered. */
  lemma SelectionInPlainTerms(fold: Fold, cs: seq<Candidate>)
    ensures var (r, unclassified) := Select(fold, cs);
            && (forall c :: c in unclassified ==> !IsCheckout(c))
            && (forall c :: c in r.authoritative ==> c in cs && IsCheckout(c))
            && (forall c, d :: c in r.authoritative && d in cs && IsCheckout(d) && SameRepository(fold, c, d) ==>
                  Preferred(fold, c, d))
            && (forall pair :: pair in r.duplicates ==>
                  && pair.0 in cs && IsCheckout(pair.0)
                  && pair.1 in r.authoritative && SameRepository(fold, pair.0, pair.1))
  {
    SelectionIsAPartition(fold, cs);
    var chosen := Select(fold, cs).0.authoritative;
    forall c, d | c in chosen && d in cs && IsCheckout(d) && SameRepository(fold, c, d)
      ensures Preferred(fold, c, d)
    {
      assert Best(fold, cs, c);
      LeastScoreIsPreferred(fold, c, d);
    }
  }

  /** Chosen checkouts stand in strict order of their folded repositories, and every repository with a
      checkout has one; the unclassified stand in order of their folded paths. */
  lemma SelectionIsOrdered(fold: Fold, cs: seq<Candidate>)
    ensures var (r, unclassified) := Select(fold, cs);
            && (forall i, j :: 0 <= i < j < |r.authoritative| ==>
                  && r.authoritative[i].repository.Some? && r.authoritative[j].repository.Some?
                  && Lexicographic(fold(r.authoritative[i].repository.value), fold(r.authoritative[j].repository.value))
                  && !SameRepository(fold, r.authoritative[i], r.authoritative[j]))
            && (forall d :: d in cs && IsCheckout(d) ==>
                  exists c :: c in r.authoritative && SameRepository(fold, c, d))
            && (forall i, j :: 0 <= i < j < |unclassified| ==>
                  Lexicographic(fold(unclassified[i].relativePath), fold(unclassified[j].relativePath)))
  {
    SelectionIsAPartition(fold, cs);
    var chosen, unclassified := Select(fold, cs).0.authoritative, Select(fold, cs).1;
    var keys := KeysOf(fold, chosen);
    forall i, j | 0 <= i < j < |chosen|
      ensures && chosen[i].repository.Some? && chosen[j].repository.Some?
              && Lexicographic(fold(chosen[i].repository.value), fold(chosen[j].repository.value))
              && !SameRepository(fold, chosen[i], chosen[j])
    {
      assert chosen[i] in chosen && chosen[j] in chosen;
      assert keys[i] == fold(chosen[i].repository.value) && keys[j] == fold(chosen[j].repository.value);
      StrLeIff(keys[i], keys[j]);
    }
    forall d | d in cs && IsCheckout(d) ensures exists c :: c in chosen && SameRepository(fold, c, d) {
      assert Key(fold, d) in Keys(fold, cs) && Key(fold, d) in keys;
      var i :| 0 <= i < |keys| && keys[i] == Key(fold, d);
      assert chosen[i] in chosen;
    }
    ByPathIsPreorder(fold);
    SortSorts(Others(cs), ByPath(fold));
    forall i, j | 0 <= i < j < |unclassified|
      ensures Lexicographic(fold(unclassified[i].relativePath), fold(unclassified[j].relativePath))
    {
      StrLeIff(fold(unclassified[i].relativePath), fold(unclassified[j].relativePath));
    }
  }

  lemma {:induction false} OthersAreUnclassified(cs: seq<Candidate>)
    ensures forall c :: c in Others(cs) ==> Unclassified(c) && c in cs
  {
    if cs != [] {
      OthersAreUnclassified(cs[..|cs| - 1]);
    }
  }

  // ----- the order of the candidates does not matter

  ghost predicate DistinctPaths(fold: Fold, cs: seq<Candidate>) {
    forall c, d :: c in cs && d in cs && fold(c.relativePath) == fold(d.relativePath) ==> c == d
  }

  lemma {:induction false} GroupCount(fold: Fold, cs: seq<Candidate>, key: string, c: Candidate)
    ensures multiset(Group(fold, cs, key))[c] ==
            if !Unclassified(c) && Key(fold, c) == key then multiset(cs)[c] else 0
    ensures multiset(Others(cs))[c] == if Unclassified(c) then multiset(cs)[c] else 0
  {
    if cs != [] {
      GroupCount(fold, cs[..|cs| - 1], key, c);
      assert cs == cs[..|cs| - 1] + [cs[|cs| - 1]];
    }
  }

  lemma SameGroups(fold: Fold, a: seq<Candidate>, b: seq<Candidate>, key: string)
    requires multiset(a) == multiset(b)
    ensures multiset(Group(fold, a, key)) == multiset(Group(fold, b, key))
    ensures multiset(Others(a)) == multiset(Others(b))
  {
    forall c
      ensures multiset(Group(fold, a, key))[c] == multiset(Group(fold, b, key))[c]
      ensures multiset(Others(a))[c] == multiset(Others(b))[c]
    {
      GroupCount(fold, a, key, c);
      GroupCount(fold, b, key, c);
    }
  }

  lemma SameRanking(fold: Fold, a: seq<Candidate>, b: seq<Candidate>, key: string)
    requires multiset(a) == multiset(b) && DistinctPaths(fold, a)
    ensures Ranked(fold, a, key) == Ranked(fold, b, key)
  {
    SameGroups(fold, a, b, key);
    RankedElements(fold, a, key);
    RankedElements(fold, b, key);
    var ranked, le := Ranked(fold, a, key), ByScore(fold);
    forall i, j | 0 <= i < |ranked| && 0 <= j < |ranked| && le(ranked[i], ranked[j]) && le(ranked[j], ranked[i])
      ensures ranked[i] == ranked[j]
    {
      StrLeAntisymmetric(fold(ranked[i].relativePath), fold(ranked[j].relativePath));
      assert ranked[i] in ranked && ranked[j] in ranked;
    }
    SortedIsUnique(ranked, Ranked(fold, b, key), le);
  }

  lemma SameOthers(fold: Fold, a: seq<Candidate>, b: seq<Candidate>)
    requires multiset(a) == multiset(b) && DistinctPaths(fold, a)
    ensures Sort(Others(a), ByPath(fold)) == Sort(Others(b), ByPath(fold))
  {
    var le := ByPath(fold);
    SameGroups(fold, a, b, []);
    ByPathIsPreorder(fold);
    SortSorts(Others(a), le);
    SortSorts(Others(b), le);
    OthersAreUnclassified(a);
    var sorted := Sort(Others(a), le);
    forall i, j | 0 <= i < |sorted| && 0 <= j < |sorted| && le(sorted[i], sorted[j]) && le(sorted[j], sorted[i])
      ensures sorted[i] == sorted[j]
    {
      StrLeAntisymmetric(fold(sorted[i].relativePath), fold(sorted[j].relativePath));
      assert sorted[i] in sorted && sorted[j] in sorted;
    }
    SortedIsUnique(sorted, Sort(Others(b), le), le);
  }

  lemma {:induction false} SameChoices(fold: Fold, a: seq<Candidate>, b: seq<Candidate>, keys: seq<string>)
    requires multiset(a) == multiset(b) && DistinctPaths(fold, a)
    ensures ChoiceFor(fold, a, keys) == ChoiceFor(fold, b, keys)
  {
    if keys != [] {
      SameChoices(fold, a, b, keys[..|keys| - 1]);
      SameRanking(fold, a, b, keys[|keys| - 1]);
    }
  }

  /** Discovering the same checkouts in another order selects the same ones, in the same order. */
  lemma OrderIsIrrelevant(fold: Fold, a: seq<Candidate>, b: seq<Candidate>)
    requires multiset(a) == multiset(b) && DistinctPaths(fold, a)
    ensures Select(fold, a) == Select(fold, b)
  {
    forall c ensures c in a <==> c in b {
      assert c in a <==> c in multiset(a);
      assert c in b <==> c in multiset(b);
    }
    assert Keys(fold, a) == Keys(fold, b);
    SameChoices(fold, a, b, SortedNames(Keys(fold, a)));
    SameOthers(fold, a, b);
  }
}
