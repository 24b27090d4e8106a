/**
 * The "now playing" split of the metadata handler in `listenToStream` (server/src/stream.ts):
 * `StreamTitle` is split on every hyphen, the first two pieces are trimmed, and which of them is
 * the title depends on the station id.
 */
module NowPlaying {
  import opened Wrappers
  import opened JsBuiltins
  import opened Stations

  /** What is cached and published; a field is None where the source leaves it `undefined`. */
  datatype Metadata = Metadata(id: StationId, title: Option<string>, artist: Option<string>)

  /** `/(kcrw|wumb)/.test(id)`: these broadcasters send the title before the artist. */
  predicate TitleFirst(id: StationId) {
    Contains(id, "kcrw") || Contains(id, "wumb")
  }

  /** `piece?.trim()`. */
  function TrimmedPiece(pieces: seq<string>, i: nat): Option<string> {
    if i < |pieces| then Some(Trim(pieces[i])) else None
  }

  /** The metadata record built from a non-empty `StreamTitle`. */
  function ParseTitle(id: StationId, streamTitle: string): (m: Metadata)
    ensures m.id == id
    // the first piece always exists, so the field it fills is always defined
    ensures TitleFirst(id) ==> m.title.Some?
    ensures !TitleFirst(id) ==> m.artist.Some?
  {
    var pieces := Split(streamTitle, '-');
    if TitleFirst(id) then Metadata(id, TrimmedPiece(pieces, 0), TrimmedPiece(pieces, 1))
    else Metadata(id, TrimmedPiece(pieces, 1), TrimmedPiece(pieces, 0))
  }

  /** The pieces of `a-b-...` when `a` holds no hyphen. */
  lemma SplitAtFirst(a: string, rest: string)
    requires '-' !in a
    ensures Split(a + "-" + rest, '-') == [a] + Split(rest, '-')
  {
    var s := a + "-" + rest;
    assert s[|a|] == '-' && s[..|a|] == a;
    assert IndexOf(s, '-') == |a|;
    assert s[|a| + 1..] == rest;
  }

  /**
   * `"<A>-<B>"` with no other hyphen: on a standard station A is the artist and B the title,
   * on a title-first station the other way round, both trimmed.
   */
  lemma {:induction false} TwoPieces(id: StationId, a: string, b: string)
    requires '-' !in a && '-' !in b
    ensures ParseTitle(id, a + "-" + b) ==
              if TitleFirst(id) then Metadata(id, Some(Trim(a)), Some(Trim(b)))
              else Metadata(id, Some(Trim(b)), Some(Trim(a)))
  {
    SplitAtFirst(a, b);
    assert Split(b, '-') == [b];
  }

  /** Titles whose first two pieces agree give the same record. */
  lemma SameLeadingPieces(id: StationId, s: string, t: string)
    requires |Split(s, '-')| >= 2 && |Split(t, '-')| >= 2
    requires Split(s, '-')[0] == Split(t, '-')[0] && Split(s, '-')[1] == Split(t, '-')[1]
    ensures ParseTitle(id, s) == ParseTitle(id, t)
  {
  }

  /** Whatever follows a second hyphen is dropped. */
  lemma {:induction false} ExtraPiecesDropped(id: StationId, a: string, b: string, rest: string)
    requires '-' !in a && '-' !in b
    ensures ParseTitle(id, a + "-" + b + "-" + rest) == ParseTitle(id, a + "-" + b)
  {
    var tail := b + "-" + rest;
    assert a + "-" + b + "-" + rest == a + "-" + tail;
    SplitAtFirst(a, tail);
    SplitAtFirst(b, rest);
    var long := Split(a + "-" + tail, '-');
    assert long == [a] + ([b] + Split(rest, '-'));
    assert long[0] == a && long[1] == b;
    SplitAtFirst(a, b);
    assert Split(b, '-') == [b];
    var short := Split(a + "-" + b, '-');
    assert short == [a] + [b];
    SameLeadingPieces(id, a + "-" + tail, a + "-" + b);
  }

  /** A title without a hyphen fills only one field; the other is left undefined. */
  lemma {:induction false} OnePiece(id: StationId, s: string)
    requires '-' !in s
    ensures ParseTitle(id, s) ==
              if TitleFirst(id) then Metadata(id, Some(Trim(s)), None)
              else Metadata(id, None, Some(Trim(s)))
  {
    assert Split(s, '-') == [s];
  }

  /** The same tag yields swapped fields on a title-first station and on a standard one. */
  lemma {:induction false} ReversalSwapsFields(first: StationId, standard: StationId, s: string)
    requires TitleFirst(first) && !TitleFirst(standard)
    ensures ParseTitle(first, s).title == ParseTitle(standard, s).artist
    ensures ParseTitle(first, s).artist == ParseTitle(standard, s).title
  {
  }

  /** A station id without the first letter of a word does not contain the word. */
  lemma {:induction false} AbsentInitial(id: string, word: string)
    requires |word| > 0 && word[0] !in id
    ensures !Contains(id, word)
    decreases |id|
  {
    if |id| > 0 {
      assert id[1..] == id[1..];
      AbsentInitial(id[1..], word);
    }
  }

  /** From index `k` on, no two adjacent characters of `id` are `a` followed by `b`. */
  predicate NoPair(id: string, a: char, b: char, k: nat)
    decreases |id| - k
  {
    k + 1 >= |id| || ((id[k] != a || id[k + 1] != b) && NoPair(id, a, b, k + 1))
  }

  /** A suffix in which the first two letters of a word never stand side by side does not contain the word. */
  lemma {:induction false} AbsentOpening(id: string, word: string, k: nat)
    requires |word| >= 2 && k <= |id| && NoPair(id, word[0], word[1], k)
    ensures !Contains(id[k..], word)
    decreases |id| - k
  {
    if k < |id| {
      AbsentOpening(id, word, k + 1);
      assert id[k..][1..] == id[k + 1..];
      if |word| <= |id| - k {
        assert id[k..][..|word|][0] == id[k] && id[k..][..|word|][1] == id[k + 1];
      }
    }
  }

  /** An id with neither "kc" nor "wu" in it is a standard, artist-first station. */
  lemma StandardId(id: StationId)
    requires NoPair(id, 'k', 'c', 0) && NoPair(id, 'w', 'u', 0)
    ensures !TitleFirst(id)
  {
    AbsentOpening(id, "kcrw", 0);
    AbsentOpening(id, "wumb", 0);
    assert id[0..] == id;
  }

  /** Ids with neither "kc" nor "wu" in them are standard, artist-first stations. */
  lemma StandardIds(ids: seq<StationId>)
    requires forall i :: 0 <= i < |ids| ==> NoPair(ids[i], 'k', 'c', 0) && NoPair(ids[i], 'w', 'u', 0)
    ensures forall i :: 0 <= i < |ids| ==> !TitleFirst(ids[i])
  {
    forall i | 0 <= i < |ids|
      ensures !TitleFirst(ids[i])
    {
      StandardId(ids[i]);
    }
  }

  /** Of the stations the relay serves, only KCRW sends the title before the artist. */
  lemma OnlyKcrwTitleFirst()
    ensures TitleFirst("kcrw")
    ensures forall i :: 0 <= i < |Table| && Table[i].id != "kcrw" ==> !TitleFirst(Table[i].id)
  {
    assert "kcrw"[..4] == "kcrw";
    var others := ["bbc6", "dublab", "wefunk", "balamii", "n10as", "blockfm", "wxpn", "stubru"];
    StandardIds(others);
    forall i | 0 <= i < |Table| && Table[i].id != "kcrw"
      ensures !TitleFirst(Table[i].id)
    {
      if i < 2 {
        assert Table[i].id == others[i];
      } else {
        assert 3 <= i <= 8;
        assert Table[i].id == others[i - 1];
      }
    }
  }

  lemma TrimArtist()
    ensures Trim("Artist ") == "Artist"
  {
    assert TrimStart("Artist ") == "Artist ";
    assert "Artist "[..6] == "Artist";
    assert TrimEnd("Artist") == "Artist";
  }

  lemma TrimTitle()
    ensures Trim(" Title") == "Title"
  {
    assert " Title"[1..] == "Title";
    assert TrimStart("Title") == "Title";
    assert TrimEnd("Title") == "Title";
  }

  /** The tag "Artist - Title" split into its two pieces, each trimmed. */
  lemma {:induction false} ArtistDashTitlePieces(id: StationId)
    ensures ParseTitle(id, "Artist - Title") ==
              if TitleFirst(id) then Metadata(id, Some("Artist"), Some("Title"))
              else Metadata(id, Some("Title"), Some("Artist"))
  {
    var artist, title := "Artist ", " Title";
    assert "Artist - Title" == artist + "-" + title;
    assert '-' !in artist && '-' !in title;
    TwoPieces(id, artist, title);
    TrimArtist();
    TrimTitle();
  }

  /** The tag "Artist - Title" on BBC6: artist "Artist", title "Title". */
  lemma StandardStationExample()
    ensures ParseTitle("bbc6", "Artist - Title") == Metadata("bbc6", Some("Title"), Some("Artist"))
  {
    AbsentInitial("bbc6", "kcrw");
    AbsentInitial("bbc6", "wumb");
    ArtistDashTitlePieces("bbc6");
  }

  /** The same tag on KCRW: title "Artist", artist "Title". */
  lemma TitleFirstStationExample()
    ensures ParseTitle("kcrw", "Artist - Title") == Metadata("kcrw", Some("Artist"), Some("Title"))
  {
    assert "kcrw"[..4] == "kcrw";
    assert TitleFirst("kcrw");
    ArtistDashTitlePieces("kcrw");
  }
}
