/** What the codec guarantees of the message types that nest deepest. */
module MessageResults {
  import opened Bytes
  import opened Wire
  import opened Messages
  import opened Codec
  import opened CodecLocality
  import opened CodecRoundTrip
  import opened CodecPacked
  import opened CodecSizes
  import opened CodecCaches
  import opened MessageTypes
  import FileEntries

  /** Serializing and parsing `m` gives `m` back; two messages serialized one after the other parse to their merge; and
      the two passes of the serializer emit the encoding, of the size that the first one returns. */
  ghost predicate CodecWorks(s: Schema, m: Message, n: Message) {
    && Parse(s, Encode(s, m)) == Some(m)
    && Parse(s, Encode(s, m) + Encode(s, n)) == Some(Merge(s, m, n))
    && Write(s, m, SizePass(s, m)) == Encode(s, m) && |Encode(s, m)| == ByteSize(s, m)
  }

  ghost predicate Sendable(s: Schema, m: Message) {
    WellTyped(s, m) && |Encode(s, m)| <= MAX_SIZE
  }

  lemma CodecWorksFor(s: Schema, m: Message, n: Message)
    requires GoodSchema(s) && Sendable(s, m) && Sendable(s, n)
    ensures CodecWorks(s, m, n)
  {
    RoundTrip(s, m);
    ConcatenationMerges(s, m, n);
    TwoPasses(s, m);
  }

  /** Any RaftMessage: any number of log entries, any command octets, every uint64 value. */
  lemma RaftMessages(m: Message, n: Message)
    requires Sendable(RAFT_MESSAGE, m) && Sendable(RAFT_MESSAGE, n)
    ensures CodecWorks(RAFT_MESSAGE, m, n)
  {
    RaftMessageIsGood();
    CodecWorksFor(RAFT_MESSAGE, m, n);
  }

  /** Any MetadataStoreSnapshot, negative sizes and times included. */
  lemma Snapshots(m: Message, n: Message)
    requires Sendable(METADATA_STORE_SNAPSHOT, m) && Sendable(METADATA_STORE_SNAPSHOT, n)
    ensures CodecWorks(METADATA_STORE_SNAPSHOT, m, n)
  {
    SnapshotIsGood();
    CodecWorksFor(METADATA_STORE_SNAPSHOT, m, n);
  }

  /** Any NameNodeRequest, with the two-octet tags of fields 16 and 18. */
  lemma NameNodeMessages(m: Message, n: Message)
    requires Sendable(NAME_NODE_REQUEST, m) && Sendable(NAME_NODE_REQUEST, n)
    ensures CodecWorks(NAME_NODE_REQUEST, m, n)
  {
    NameNodeRequestIsGood();
    CodecWorksFor(NAME_NODE_REQUEST, m, n);
  }

  /** The blocks of a file entry, behind its other fields, in any mix of packed runs and single varints: the entry
      parses to the concatenation of their values, and so serializes to the same canonical octets as any other mix. */
  lemma FileEntryPortions(f: FileEntries.Fields, ps: seq<Portion>)
    requires WellTyped(FILE_ENTRY, f.ToMessage()) && |Encode(FILE_ENTRY, f.ToMessage())| <= MAX_SIZE
    requires forall k :: 0 <= k < |ps| && ps[k].Run? ==> |EncodePacked(ps[k].ns)| <= MAX_SIZE
    ensures Parse(FILE_ENTRY, Encode(FILE_ENTRY, f.ToMessage()) + OctetsOf(FILE_ENTRY.fields[4], ps))
         == Some(f.(blocks := f.blocks + ValuesOf(ps)).ToMessage())
  {
    var m := f.ToMessage();
    FileEntryIsGood();
    RoundTrip(FILE_ENTRY, m);
    assert Fits(FILE_ENTRY.fields[4], m.vals[4]);
    AnyPortions(FILE_ENTRY, m, 4, ps);
    FileEntries.SetBlocks(f, f.blocks + ValuesOf(ps));
    Chain(FILE_ENTRY, Default(FILE_ENTRY), Encode(FILE_ENTRY, m), m, OctetsOf(FILE_ENTRY.fields[4], ps),
          Append(m, 4, ValuesOf(ps)));
  }
}
