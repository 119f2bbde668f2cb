/** The decoded firehose event (`Message`, `Commit`, `Record`, `Reply`), its
    protobuf twin used on the MQTT path, and the small predicates over them. */
module Messages {
  import opened Results
  import opened Text

  /** Reply linkage. `parent` and `root` are arbitrary JSON values in the feed;
      they are kept as their raw JSON text, and `None` stands for JSON null or
      an absent field. */
  datatype Reply = Reply(parent: Option<string>, root: Option<string>)

  datatype Record = Record(
    recordType: string,
    createdAt: string,
    langs: seq<string>,
    text: string,
    embed: Option<string>,
    reply: Reply)

  datatype Commit = Commit(
    rev: string,
    operation: string,
    collection: string,
    rkey: string,
    record: Record,
    cid: string)

  /** A decoded post with the enrichment fields filled in by the pipeline. */
  datatype Message = Message(
    did: string,
    kind: string,
    commit: Commit,
    categories: seq<string>,
    finSentiment: string)

  /** The protobuf form of a commit. Its record is a pointer, nil when the
      payload carries no record (a delete commit, say). */
  datatype ProtoCommit = ProtoCommit(
    rev: string,
    operation: string,
    collection: string,
    rkey: string,
    record: Option<Record>,
    cid: string)

  /** The protobuf form of a post. The commit is a pointer, nil when the
      payload carries none (an identity or account event, say), and the
      sentiment is an optional string (a nil `*string` in Go). */
  datatype ProtoMessage = ProtoMessage(
    did: string,
    kind: string,
    commit: Option<ProtoCommit>,
    categories: seq<string>,
    finSentiment: Option<string>)

  /** Both pointers on the way to the post text are set. */
  predicate HasRecord(p: ProtoMessage)
  {
    p.commit.Some? && p.commit.value.record.Some?
  }

  function ProtoText(p: ProtoMessage): string
    requires HasRecord(p)
  {
    p.commit.value.record.value.text
  }

  /** Go's zero `Record`. */
  const ZeroRecord := Record("", "", [], "", None, Reply(None, None))

  /** The plain form of a protobuf commit; a nil record reads as the zero
      record, a nil commit as the zero commit. */
  function PlainCommit(c: Option<ProtoCommit>): Commit
  {
    match c
    case None => Commit("", "", "", "", ZeroRecord, "")
    case Some(pc) => Commit(pc.rev, pc.operation, pc.collection, pc.rkey, pc.record.GetOr(ZeroRecord), pc.cid)
  }

  /** Posts shorter than this many bytes are too short to be useful. */
  const MinTextBytes := 20

  function PostText(m: Message): string
  {
    m.commit.record.text
  }

  /** Only the first language tag decides: the tag list starts with "en". */
  predicate IsEnglish(m: Message)
    ensures IsEnglish(m) <==> ["en"] <= m.commit.record.langs
  {
    |m.commit.record.langs| > 0 && m.commit.record.langs[0] == "en"
  }

  /** A post is a thread root when it links to no root post; its parent
      link is not consulted. */
  predicate IsRoot(m: Message)
    ensures IsRoot(m) <==> m.commit.record.reply == Reply(m.commit.record.reply.parent, None)
  {
    m.commit.record.reply.root.None?
  }

  /** Text length is measured in UTF-8 bytes, like Go's `len`: a too-short
      text has fewer than 20 characters, one of fewer than 5 characters is
      always too short (even at four bytes a character), and for pure ASCII
      text bytes and characters coincide. */
  predicate IsTooShort(m: Message)
    ensures IsTooShort(m) ==> |PostText(m)| < MinTextBytes
    ensures |PostText(m)| * 4 < MinTextBytes ==> IsTooShort(m)
    ensures IsAscii(PostText(m)) ==> (IsTooShort(m) <==> |PostText(m)| < MinTextBytes)
  {
    Utf8Length(PostText(m)) < MinTextBytes
  }

  /** A valid post is English, a thread root, and long enough; in
      particular it has at least five characters. */
  predicate IsValid(m: Message)
    ensures IsValid(m) ==> ["en"] <= m.commit.record.langs && m.commit.record.reply.root.None?
    ensures IsValid(m) ==> |PostText(m)| >= 5
  {
    IsEnglish(m) && IsRoot(m) && !IsTooShort(m)
  }

  /** The storage decision over the protobuf form: the sentiment must be
      present and be "positive" or "negative". */
  predicate ShouldStoreMessage(p: ProtoMessage)
    ensures ShouldStoreMessage(p) ==> p.finSentiment != None && p.finSentiment != Some("") && p.finSentiment != Some("other")
  {
    p.finSentiment.Some? && (p.finSentiment.value == "positive" || p.finSentiment.value == "negative")
  }

  /** The storage decision over the plain form, used by the metrics collector.
      The "other" sentiment and the empty label of a failed or switched-off
      sentiment step are never stored. */
  predicate ShouldStore(m: Message)
    ensures ShouldStore(m) ==> m.finSentiment != "" && m.finSentiment != "other"
  {
    m.finSentiment == "positive" || m.finSentiment == "negative"
  }

  /** The plain form of a protobuf post; a nil sentiment reads as "", and
      nil commit or record pointers as zero values. The conversion keeps the
      text, the categories and the storage decision; a post without a
      record has empty text and is never valid. */
  function ToMessage(p: ProtoMessage): (m: Message)
    ensures HasRecord(p) ==> PostText(m) == ProtoText(p)
    ensures !HasRecord(p) ==> PostText(m) == "" && !IsValid(m)
    ensures m.categories == p.categories
    ensures ShouldStore(m) <==> ShouldStoreMessage(p)
    ensures IsValid(m) <==>
              && HasRecord(p) && ["en"] <= p.commit.value.record.value.langs
              && p.commit.value.record.value.reply.root.None? && Utf8Length(ProtoText(p)) >= MinTextBytes
  {
    Message(p.did, p.kind, PlainCommit(p.commit), p.categories, p.finSentiment.GetOr(""))
  }

  function WithLangs(m: Message, langs: seq<string>): Message
  {
    m.(commit := m.commit.(record := m.commit.record.(langs := langs)))
  }

  // ---------------------------------------------------------------------------
  // Properties
  // ---------------------------------------------------------------------------

  /** A post is English exactly when its first language tag is "en"; tags after
      the first are never consulted, so ["fr", "en"] is not English and an
      empty tag list is not English either. */
  lemma FirstLanguageDecides(m: Message, rest: seq<string>)
    ensures IsEnglish(WithLangs(m, [])) == false
    ensures IsEnglish(WithLangs(m, ["en"] + rest))
    ensures !IsEnglish(WithLangs(m, ["fr", "en"]))
    ensures IsEnglish(m) ==> "en" in m.commit.record.langs
  {
  }

  /** Validity in terms of the record's own fields: first language "en", no
      root link, and at least 20 bytes of text. For ASCII text that means at
      least 20 characters. */
  lemma ValidMeans(m: Message)
    ensures IsValid(m) <==>
              && |m.commit.record.langs| > 0 && m.commit.record.langs[0] == "en"
              && m.commit.record.reply.root == None
              && Utf8Length(m.commit.record.text) >= 20
    ensures IsValid(m) && IsAscii(PostText(m)) ==> |PostText(m)| >= 20
    ensures IsValid(m) ==> |PostText(m)| >= 5
  {
  }

  /** The storage decision on the protobuf form: absent sentiment, or any value
      other than "positive" and "negative", is never stored. */
  lemma ShouldStoreCases(p: ProtoMessage, v: string)
    ensures p.finSentiment == None ==> !ShouldStoreMessage(p)
    ensures ShouldStoreMessage(p.(finSentiment := Some("positive")))
    ensures ShouldStoreMessage(p.(finSentiment := Some("negative")))
    ensures v != "positive" && v != "negative" ==> !ShouldStoreMessage(p.(finSentiment := Some(v)))
    ensures !ShouldStoreMessage(p.(finSentiment := Some(""))) && !ShouldStoreMessage(p.(finSentiment := Some("other")))
  {
  }

}
