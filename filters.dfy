/**
 * The decision whether a task forwards a message
 * (`SteeringTask._should_forward_message`): the blacklist/whitelist content
 * filter on the message text, then the fixed media-type chain, then the link
 * check, then the default `True`.
 */
module Filters {
  import opened PyStr
  import opened TaskConfigs

  /** The parts of a Telethon message the filters look at. */
  datatype Message = Message(
    text: string,
    caption: string,
    hasMedia: bool,
    photo: bool,
    video: bool,
    gif: bool,
    document: bool,
    sticker: bool,
    voice: bool,
    videoNote: bool,
    audio: bool,
    audioHasTitle: bool,
    contact: bool,
    geo: bool,
    venue: bool,
    poll: bool,
    game: bool)

  /** `message.text or message.caption or ""` */
  function MessageText(m: Message): string {
    if m.text != [] then m.text else m.caption
  }

  // ---------------------------------------------------------------------------
  // Comma-separated word lists

  /** `[w.strip() for w in parts if w.strip()]` */
  function TrimmedParts(parts: seq<string>): (r: seq<string>)
    ensures |r| <= |parts|
    ensures forall i :: 0 <= i < |r| ==> r[i] != [] && exists j :: 0 <= j < |parts| && r[i] == Strip(parts[j])
    ensures forall j :: 0 <= j < |parts| && Strip(parts[j]) != [] ==> Strip(parts[j]) in r
    decreases |parts|
  {
    if parts == [] then []
    else
      var rest := TrimmedParts(parts[1..]);
      assert forall i :: 0 <= i < |rest| ==> exists j :: 0 <= j < |parts| && rest[i] == Strip(parts[j]) by {
        forall i | 0 <= i < |rest| ensures exists j :: 0 <= j < |parts| && rest[i] == Strip(parts[j]) {
          var j :| 0 <= j < |parts[1..]| && rest[i] == Strip(parts[1..][j]);
          assert parts[1..][j] == parts[j + 1];
        }
      }
      assert forall j :: 1 <= j < |parts| ==> parts[j] == parts[1..][j - 1];
      (if Strip(parts[0]) != [] then [Strip(parts[0])] else []) + rest
  }

  /** The kept pieces of a list are those of its two halves, in the same order. */
  lemma {:induction false} TrimmedPartsAppend(a: seq<string>, b: seq<string>)
    ensures TrimmedParts(a + b) == TrimmedParts(a) + TrimmedParts(b)
    decreases |a|
  {
    if a == [] {
      assert a + b == b;
    } else {
      assert (a + b)[0] == a[0] && (a + b)[1..] == a[1..] + b;
      TrimmedPartsAppend(a[1..], b);
    }
  }

  /** One piece is kept, stripped, exactly when it is not blank. */
  lemma TrimmedPartsOne(p: string)
    ensures TrimmedParts([p]) == if Strip(p) != [] then [Strip(p)] else []
  {
    assert [p][1..] == [];
  }

  /** The words of a comma-separated list, trimmed, blanks dropped. */
  function Words(list: string): seq<string> {
    TrimmedParts(Split(list, ','))
  }

  function LowerAll(ws: seq<string>): seq<string> {
    seq(|ws|, i requires 0 <= i < |ws| => Lower(ws[i]))
  }

  /** `any(w in s for w in words)` */
  predicate AnyIn(words: seq<string>, s: string) {
    exists i :: 0 <= i < |words| && Contains(s, words[i])
  }

  /** An empty list has no words, so a non-empty word list comes from a non-empty setting. */
  lemma WordsOfEmpty()
    ensures Words([]) == []
  {
    assert Split([], ',') == [[]];
    assert Strip([]) == [];
  }

  // ---------------------------------------------------------------------------
  // Content filter

  /** The blacklist is on and one of its words occurs in the text, ignoring case. */
  predicate Blacklisted(c: SteeringTaskConfig, text: string) {
    c.blacklistEnabled && c.blacklistWords != [] && AnyIn(LowerAll(Words(c.blacklistWords)), Lower(text))
  }

  /** The whitelist is on and none of its words occurs in the text, ignoring case. */
  predicate NotWhitelisted(c: SteeringTaskConfig, text: string) {
    c.whitelistEnabled && c.whitelistWords != [] && !AnyIn(LowerAll(Words(c.whitelistWords)), Lower(text))
  }

  /** The content filter passes: it only looks at messages that have text. */
  predicate ContentPasses(c: SteeringTaskConfig, m: Message) {
    var t := MessageText(m);
    t == [] || (!Blacklisted(c, t) && !NotWhitelisted(c, t))
  }

  // ---------------------------------------------------------------------------
  // Media-type chain, as the source writes it

  const LinkMarkers: seq<string> := ["http://", "https://", "www.", "t.me/"]

  predicate HasLink(m: Message) {
    m.text != [] && AnyIn(LinkMarkers, Lower(m.text))
  }

  /** `_should_forward_message`: the content filter, then the media-type section. */
  predicate ShouldForward(c: SteeringTaskConfig, m: Message) {
    var t := MessageText(m);
    if t != [] && Blacklisted(c, t) then false
    else if t != [] && NotWhitelisted(c, t) then false
    else MediaDecision(c, m)
  }

  /** The media-type section of `_should_forward_message` (userbot.py:250-284). */
  predicate MediaDecision(c: SteeringTaskConfig, m: Message) {
    if m.text != [] && !m.hasMedia then c.forwardText
    else if m.hasMedia && m.photo then c.forwardPhotos
    else if m.hasMedia && m.video then (if m.gif then c.forwardGifs else c.forwardVideos)
    else if m.hasMedia && m.document then
      if m.sticker then c.forwardStickers
      else if m.voice then c.forwardVoice
      else if m.videoNote then c.forwardRound
      else if m.audio then (if m.audioHasTitle then c.forwardMusic else c.forwardAudio)
      else c.forwardFiles
    else if m.hasMedia && m.contact then c.forwardContacts
    else if m.hasMedia && (m.geo || m.venue) then c.forwardLocations
    else if m.hasMedia && m.poll then c.forwardPolls
    else if m.hasMedia && m.game then c.forwardGames
    else if HasLink(m) then c.forwardLinks
    else true
  }

  // ---------------------------------------------------------------------------
  // The same chain as a classification followed by a table lookup

  /** The one kind a message is classified as; `Unclassified` is forwarded. */
  datatype MediaKind =
    | PlainText | Photo | Gif | Video | Sticker | Voice | RoundVideo | Music | Audio
    | File | Contact | Location | Poll | Game | Link | Unclassified

  /** Which classification rules hold of a message, before precedence is applied. */
  predicate Matches(m: Message, k: MediaKind) {
    match k
    case PlainText => m.text != [] && !m.hasMedia
    case Photo => m.hasMedia && m.photo
    case Gif => m.hasMedia && m.video && m.gif
    case Video => m.hasMedia && m.video && !m.gif
    case Sticker => m.hasMedia && m.document && m.sticker
    case Voice => m.hasMedia && m.document && m.voice
    case RoundVideo => m.hasMedia && m.document && m.videoNote
    case Music => m.hasMedia && m.document && m.audio && m.audioHasTitle
    case Audio => m.hasMedia && m.document && m.audio && !m.audioHasTitle
    case File => m.hasMedia && m.document
    case Contact => m.hasMedia && m.contact
    case Location => m.hasMedia && (m.geo || m.venue)
    case Poll => m.hasMedia && m.poll
    case Game => m.hasMedia && m.game
    case Link => HasLink(m)
    case Unclassified => true
  }

  /** The precedence of the rules, first match wins. */
  const Precedence: seq<MediaKind> :=
    [PlainText, Photo, Gif, Video, Sticker, Voice, RoundVideo, Music, Audio,
     File, Contact, Location, Poll, Game, Link, Unclassified]

  /** The first kind from position `i` of `Precedence` on whose rule matches. */
  function ClassifyFrom(m: Message, i: nat): (k: MediaKind)
    requires i <= |Precedence|
    ensures Matches(m, k)
    decreases |Precedence| - i
  {
    if i == |Precedence| then Unclassified
    else if Matches(m, Precedence[i]) then Precedence[i]
    else ClassifyFrom(m, i + 1)
  }

  function Classify(m: Message): MediaKind {
    ClassifyFrom(m, 0)
  }

  /** The per-kind forward flag of a task. */
  function Allowed(c: SteeringTaskConfig, k: MediaKind): bool {
    match k
    case PlainText => c.forwardText
    case Photo => c.forwardPhotos
    case Gif => c.forwardGifs
    case Video => c.forwardVideos
    case Sticker => c.forwardStickers
    case Voice => c.forwardVoice
    case RoundVideo => c.forwardRound
    case Music => c.forwardMusic
    case Audio => c.forwardAudio
    case File => c.forwardFiles
    case Contact => c.forwardContacts
    case Location => c.forwardLocations
    case Poll => c.forwardPolls
    case Game => c.forwardGames
    case Link => c.forwardLinks
    case Unclassified => true
  }

  // ---------------------------------------------------------------------------
  // Properties

  /**
   * The source's media chain is a lookup of the flag for the message's kind,
   * where the kinds are tried in `Precedence` order.
   */
  lemma MediaDecisionIsLookup(c: SteeringTaskConfig, m: Message)
    ensures MediaDecision(c, m) == Allowed(c, Classify(m))
  {
    if Matches(m, PlainText) || Matches(m, Photo) || Matches(m, Gif) || Matches(m, Video) {
    } else {
      assert Classify(m) == ClassifyFrom(m, 4);
      MediaChainFromSticker(c, m);
    }
  }

  lemma MediaChainFromSticker(c: SteeringTaskConfig, m: Message)
    requires !Matches(m, PlainText) && !Matches(m, Photo) && !Matches(m, Gif) && !Matches(m, Video)
    ensures MediaDecision(c, m) == Allowed(c, ClassifyFrom(m, 4))
  {
    if Matches(m, Sticker) || Matches(m, Voice) || Matches(m, RoundVideo) || Matches(m, Music) {
    } else {
      assert ClassifyFrom(m, 4) == ClassifyFrom(m, 8);
      MediaChainFromAudio(c, m);
    }
  }

  lemma MediaChainFromAudio(c: SteeringTaskConfig, m: Message)
    requires !Matches(m, PlainText) && !Matches(m, Photo) && !Matches(m, Gif) && !Matches(m, Video)
    requires !Matches(m, Sticker) && !Matches(m, Voice) && !Matches(m, RoundVideo) && !Matches(m, Music)
    ensures MediaDecision(c, m) == Allowed(c, ClassifyFrom(m, 8))
  {
    if Matches(m, Audio) || Matches(m, File) {
    } else {
      assert ClassifyFrom(m, 8) == ClassifyFrom(m, 10);
      MediaChainFromContact(c, m);
    }
  }

  lemma MediaChainFromContact(c: SteeringTaskConfig, m: Message)
    requires !Matches(m, PlainText) && !Matches(m, Photo) && !Matches(m, Gif) && !Matches(m, Video)
    requires !Matches(m, Sticker) && !Matches(m, Voice) && !Matches(m, RoundVideo) && !Matches(m, Music)
    requires !Matches(m, Audio) && !Matches(m, File)
    ensures MediaDecision(c, m) == Allowed(c, ClassifyFrom(m, 10))
  {
    if Matches(m, Contact) || Matches(m, Location) {
    } else {
      assert ClassifyFrom(m, 10) == ClassifyFrom(m, 12);
      MediaChainFromPoll(c, m);
    }
  }

  lemma MediaChainFromPoll(c: SteeringTaskConfig, m: Message)
    requires !Matches(m, PlainText) && !Matches(m, Photo) && !Matches(m, Gif) && !Matches(m, Video)
    requires !Matches(m, Sticker) && !Matches(m, Voice) && !Matches(m, RoundVideo) && !Matches(m, Music)
    requires !Matches(m, Audio) && !Matches(m, File) && !Matches(m, Contact) && !Matches(m, Location)
    ensures MediaDecision(c, m) == Allowed(c, ClassifyFrom(m, 12))
  {
    if Matches(m, Poll) || Matches(m, Game) {
    } else {
      assert ClassifyFrom(m, 12) == ClassifyFrom(m, 14);
      assert ClassifyFrom(m, 15) == Unclassified;
    }
  }

  /** The filter is the content filter followed by the kind lookup. */
  lemma ShouldForwardIsLookup(c: SteeringTaskConfig, m: Message)
    ensures ShouldForward(c, m) == (ContentPasses(c, m) && Allowed(c, Classify(m)))
  {
    MediaDecisionIsLookup(c, m);
  }

  /** A blacklist word found in the text, ignoring case, rejects whatever the whitelist and media flags say. */
  lemma BlacklistRejects(c: SteeringTaskConfig, m: Message, w: string)
    requires c.blacklistEnabled && MessageText(m) != []
    requires w in Words(c.blacklistWords) && Contains(Lower(MessageText(m)), Lower(w))
    ensures !ShouldForward(c, m)
  {
    WordsOfEmpty();
    var ws := Words(c.blacklistWords);
    var i :| 0 <= i < |ws| && ws[i] == w;
    assert LowerAll(ws)[i] == Lower(w);
  }

  /** With an enabled, non-empty whitelist, a text with none of its words is rejected. */
  lemma WhitelistRejects(c: SteeringTaskConfig, m: Message)
    requires c.whitelistEnabled && MessageText(m) != [] && c.whitelistWords != []
    requires forall w :: w in Words(c.whitelistWords) ==> !Contains(Lower(MessageText(m)), Lower(w))
    ensures !ShouldForward(c, m)
  {
    var ws := Words(c.whitelistWords);
    forall i | 0 <= i < |ws| ensures !Contains(Lower(MessageText(m)), LowerAll(ws)[i]) {
      assert ws[i] in ws;
    }
  }

  /** A message without text or caption skips the content filter entirely. */
  lemma NoTextSkipsContentFilter(c: SteeringTaskConfig, m: Message)
    requires MessageText(m) == []
    ensures ShouldForward(c, m) == Allowed(c, Classify(m))
  {
    ShouldForwardIsLookup(c, m);
  }

  /** A text-only message that passes the content filter gets exactly `forward_text`; `forward_links` is not consulted. */
  lemma TextOnlyUsesTextFlag(c: SteeringTaskConfig, m: Message)
    requires m.text != [] && !m.hasMedia && ContentPasses(c, m)
    ensures ShouldForward(c, m) == c.forwardText
  {
  }

  /** Changing the flag of any other kind cannot change the decision. */
  lemma OnlyOwnFlagMatters(c: SteeringTaskConfig, d: SteeringTaskConfig, m: Message)
    requires c.blacklistEnabled == d.blacklistEnabled && c.blacklistWords == d.blacklistWords
    requires c.whitelistEnabled == d.whitelistEnabled && c.whitelistWords == d.whitelistWords
    requires Allowed(c, Classify(m)) == Allowed(d, Classify(m))
    ensures ShouldForward(c, m) == ShouldForward(d, m)
  {
    ShouldForwardIsLookup(c, m);
    ShouldForwardIsLookup(d, m);
  }
}
