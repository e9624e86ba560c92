/** The note book: free-text notes with tags, the tag search, and the keyword match
    the `search-note` command tries before anything else. */
module Notes {
  import opened Text
  import opened Calendar
  import Seqs

  /** `GeneralNote`: its text is stored stripped, its tags as given, and it is
      stamped with the day it was written (the program reads the clock). The
      notes commands extend its tag list in place, so it is an object. */
  class GeneralNote {
    var text: string
    var tags: seq<string>
    var createdAt: CalendarDate

    constructor (text: string, tags: seq<string>, today: CalendarDate)
      ensures this.text == Strip(text) && this.tags == tags && createdAt == today
    {
      this.text := Strip(text);
      this.tags := tags;
      createdAt := today;
    }

    /** `note.tags.extend(more)`, as the `add-tag` command does. */
    method AddTags(more: seq<string>)
      modifies this`tags
      ensures tags == old(tags) + more
    {
      tags := tags + more;
    }
  }

  /** `simple_match` on a note's text and tags: every `\w+` word of the query, in
      lower case, is a substring of the lower-cased text or of the lower-cased tags
      joined by spaces. A query without words matches every note. */
  predicate KeywordMatch(query: string, text: string, tags: seq<string>) {
    forall w | w in WordTokens(query) ::
      Contains(Lower(text), Lower(w)) || Contains(Lower(JoinWithSpace(tags)), Lower(w))
  }

  predicate SimpleMatch(query: string, note: GeneralNote)
    reads note
  {
    KeywordMatch(query, note.text, note.tags)
  }

  /** Ignoring case keeps a substring a substring. */
  lemma LowerContains(hay: string, w: string)
    requires Contains(hay, w)
    ensures Contains(Lower(hay), Lower(w))
  {
    var i :| 0 <= i <= |hay| && OccursAt(hay, w, i);
    assert Lower(hay)[i..i + |w|] == Lower(w) by {
      assert forall j | 0 <= j < |w| :: Lower(hay)[i + j] == LowerChar(w[j]);
    }
    assert OccursAt(Lower(hay), Lower(w), i);
  }

  /** A string without word characters has no `\w+` words. */
  lemma {:induction false} NoWordsNoTokens(s: string)
    requires forall i | 0 <= i < |s| :: !IsWordChar(s[i])
    ensures WordTokens(s) == []
  {
    if s != [] {
      NoWordsNoTokens(s[1..]);
    }
  }

  /** A query without any word matches every note. */
  lemma NoWordsMatchAll(query: string, text: string, tags: seq<string>)
    requires forall i | 0 <= i < |query| :: !IsWordChar(query[i])
    ensures KeywordMatch(query, text, tags)
  {
    NoWordsNoTokens(query);
  }

  /** The words of a query are matched together: a query made of two parts joined
      by a space matches exactly when each part matches on its own. */
  lemma {:induction false} MatchBothParts(q1: string, q2: string, text: string, tags: seq<string>)
    ensures KeywordMatch(q1 + " " + q2, text, tags) <==>
      KeywordMatch(q1, text, tags) && KeywordMatch(q2, text, tags)
  {
    WordTokensSplit(q1, ' ', q2);
    assert q1 + " " + q2 == q1 + [' '] + q2;
  }

  /** A single word is its own only token. */
  lemma {:induction false} SingleWord(w: string)
    requires w != [] && forall i | 0 <= i < |w| :: IsWordChar(w[i])
    ensures WordTokens(w) == [w]
  {
    var n := WordRun(w);
    assert IsWordChar(w[0]);
    assert n == |w|;
    assert w[..n] == w && w[n..] == [];
  }

  /** The query's words are matched one at a time: a note matches the query exactly
      when it matches each `\w+` word of the query taken as a query of its own. */
  lemma MatchWordByWord(query: string, text: string, tags: seq<string>)
    ensures KeywordMatch(query, text, tags) <==>
      forall w | w in WordTokens(query) :: KeywordMatch(w, text, tags)
  {
    forall w | w in WordTokens(query)
      ensures KeywordMatch(w, text, tags) <==>
        Contains(Lower(text), Lower(w)) || Contains(Lower(JoinWithSpace(tags)), Lower(w))
    {
      SingleWord(w);
    }
  }

  /** Searching a note by one of its tags, when the tag is a single word, finds it. */
  lemma {:induction false} TagWordMatches(tag: string, text: string, tags: seq<string>)
    requires tag in tags
    requires tag != [] && forall i | 0 <= i < |tag| :: IsWordChar(tag[i])
    ensures KeywordMatch(tag, text, tags)
  {
    SingleWord(tag);
    LowerContains(JoinWithSpace(tags), tag);
  }

  /** `GeneralNoteBook`: the notes in the order they were written. */
  class NoteBook {
    var notes: seq<GeneralNote>

    constructor ()
      ensures notes == []
    {
      notes := [];
    }

    /** `add_note`: appends a new note built from the text and tags. */
    method AddNote(text: string, tags: seq<string>, today: CalendarDate)
      modifies this`notes
      ensures |notes| == |old(notes)| + 1 && notes[..|old(notes)|] == old(notes)
      ensures fresh(notes[|old(notes)|])
      ensures notes[|old(notes)|].text == Strip(text)
      ensures notes[|old(notes)|].tags == tags && notes[|old(notes)|].createdAt == today
    {
      var note := new GeneralNote(text, tags, today);
      notes := notes + [note];
    }

    /** `search_by_tag`: the notes carrying exactly the given tag, in order. */
    function SearchByTag(tag: string): (hits: seq<GeneralNote>)
      reads this, notes
      ensures forall n | n in hits :: n in notes && tag in n.tags
      ensures forall n | n in notes && tag in n.tags :: n in hits
      ensures Seqs.IsSubsequence(hits, notes)
    {
      TaggedIn(notes, tag)
    }

    /** The keyword filter of `search-note`: the positions of the notes that
        `simple_match` accepts, in increasing order. */
    function KeywordHits(query: string): (hits: seq<nat>)
      reads this, notes
      ensures forall k | k in hits :: k < |notes| && SimpleMatch(query, notes[k])
      ensures forall k: nat | k < |notes| && SimpleMatch(query, notes[k]) :: k in hits
      ensures forall i, j | 0 <= i < j < |hits| :: hits[i] < hits[j]
    {
      var ns := notes;
      TruePositions(seq(|ns|, i requires 0 <= i < |ns| reads ns => SimpleMatch(query, ns[i])))
    }
  }

  function TaggedIn(ns: seq<GeneralNote>, tag: string): (hits: seq<GeneralNote>)
    reads ns
    ensures forall n | n in hits :: n in ns && tag in n.tags
    ensures forall n | n in ns && tag in n.tags :: n in hits
    ensures Seqs.IsSubsequence(hits, ns)
  {
    if ns == [] then []
    else
      var rest := TaggedIn(ns[1..], tag);
      assert ns == [ns[0]] + ns[1..];
      if tag in ns[0].tags then
        assert ([ns[0]] + rest)[1..] == rest;
        [ns[0]] + rest
      else
        Seqs.SubsequenceOfTail(rest, ns);
        rest
  }

  /** The positions that hold `true`, in increasing order. */
  function TruePositions(flags: seq<bool>): (ps: seq<nat>)
    ensures forall k | k in ps :: k < |flags| && flags[k]
    ensures forall k: nat | k < |flags| && flags[k] :: k in ps
    ensures forall i, j | 0 <= i < j < |ps| :: ps[i] < ps[j]
  {
    if flags == [] then []
    else
      var front := TruePositions(flags[..|flags| - 1]);
      assert forall i | 0 <= i < |front| :: front[i] in front;
      if flags[|flags| - 1] then front + [|flags| - 1] else front
  }
}
