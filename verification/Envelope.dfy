/** Encrypting, signing, verifying and opening envelopes (client/js/crypto.js:91-138, 158-250), over
    any primitives that undo each other. Texts and keys are octets; the random values that an
    operation draws are its parameters. */
module Envelope {
  import opened Bytes
  import opened Options
  import opened Transcript

  /** ML-KEM, HKDF, AES-GCM, ML-DSA and SHA-256, with the relations between their key pairs. */
  datatype Suite = Suite(
    encapsulate: (Octets, Octets) -> (Octets, Octets), // public key, coins -> ciphertext, secret
    decapsulate: (Octets, Octets) -> Octets,           // ciphertext, secret key
    derive: Octets -> Octets,
    seal: (Octets, Octets, Octets) -> Octets,          // key, nonce, plaintext
    unseal: (Octets, Octets, Octets) -> Option<Octets>,
    sign: (Octets, Octets) -> Octets,                  // secret key, transcript
    verify: (Octets, Octets, Octets) -> bool,          // public key, transcript, signature
    sha256: Octets -> Octets,
    kemPair: (Octets, Octets) -> bool,                 // public key, secret key
    dsaPair: (Octets, Octets) -> bool)

  ghost predicate Correct(s: Suite) {
    && (forall pk, sk, coins ::
          s.kemPair(pk, sk) ==> s.decapsulate(s.encapsulate(pk, coins).0, sk) == s.encapsulate(pk, coins).1)
    && (forall k, iv, text :: s.unseal(k, iv, s.seal(k, iv, text)) == Some(text))
    && (forall pk, sk, t :: s.dsaPair(pk, sk) ==> s.verify(pk, t, s.sign(sk, t)))
  }

  datatype Error = NotAuthentic | NotAddressed | ContentsDiffer | CannotOpen

  // ---- Wrapping the content key ----

  /** A party, with the coins and the nonce drawn for it. */
  datatype Recipient = Recipient(name: Octets, kemPub: Octets, coins: Octets, iv: Octets)

  function WrapFor(s: Suite, cek: Octets, r: Recipient): KeyEntry {
    var (kemCt, secret) := s.encapsulate(r.kemPub, r.coins);
    KeyEntry(kemCt, r.iv, s.seal(s.derive(secret), r.iv, cek))
  }

  /** The wrapped keys of all these parties. */
  function Wrapped(s: Suite, cek: Octets, rs: seq<Recipient>): Keys {
    if |rs| == 0 then NO_KEYS
    else var last := rs[|rs| - 1]; Put(Wrapped(s, cek, rs[..|rs| - 1]), last.name, WrapFor(s, cek, last))
  }

  method WrapCekForParties(s: Suite, cek: Octets, recipients: seq<Recipient>) returns (keys: Keys)
    ensures keys == Wrapped(s, cek, recipients)
  {
    keys := NO_KEYS;
    for i := 0 to |recipients|
      invariant keys == Wrapped(s, cek, recipients[..i])
    {
      var r := recipients[i];
      assert recipients[..i + 1][..i] == recipients[..i];
      var (kemCt, secret) := s.encapsulate(r.kemPub, r.coins);
      var kek := s.derive(secret);
      keys := Put(keys, r.name, KeyEntry(kemCt, r.iv, s.seal(kek, r.iv, cek)));
    }
    assert recipients[..|recipients|] == recipients;
  }

  function UnwrapCek(s: Suite, entry: KeyEntry, kemSecret: Octets): Option<Octets> {
    s.unseal(s.derive(s.decapsulate(entry.kemCt, kemSecret)), entry.iv, entry.wrapped)
  }

  /** Party i is the last one of its name. */
  predicate LastOfName(rs: seq<Recipient>, i: int) {
    0 <= i < |rs| && forall j :: i < j < |rs| ==> rs[j].name != rs[i].name
  }

  lemma {:induction false} WrappedValid(s: Suite, cek: Octets, rs: seq<Recipient>)
    ensures ValidKeys(Wrapped(s, cek, rs))
  {
    if |rs| > 0 {
      var k := |rs| - 1;
      WrappedValid(s, cek, rs[..k]);
      PutValid(Wrapped(s, cek, rs[..k]), rs[k].name, WrapFor(s, cek, rs[k]));
    }
  }

  /** Every party has the key made for the last one of its name. */
  lemma {:induction false} WrappedEntry(s: Suite, cek: Octets, rs: seq<Recipient>, i: nat)
    requires LastOfName(rs, i)
    ensures rs[i].name in Wrapped(s, cek, rs).entries
    ensures Wrapped(s, cek, rs).entries[rs[i].name] == WrapFor(s, cek, rs[i])
  {
    var k := |rs| - 1;
    if i < k {
      assert rs[k].name != rs[i].name;
      assert LastOfName(rs[..k], i);
      WrappedEntry(s, cek, rs[..k], i);
    }
  }

  /** Nobody else has one. */
  lemma {:induction false} WrappedOnly(s: Suite, cek: Octets, rs: seq<Recipient>, name: Octets) returns (i: nat)
    requires name in Wrapped(s, cek, rs).entries
    ensures LastOfName(rs, i) && rs[i].name == name
  {
    i := |rs| - 1;
    if rs[i].name != name {
      i := WrappedOnly(s, cek, rs[..i], name);
    }
  }

  lemma WrappedOpens(s: Suite, cek: Octets, r: Recipient, kemSecret: Octets)
    requires Correct(s) && s.kemPair(r.kemPub, kemSecret)
    ensures UnwrapCek(s, WrapFor(s, cek, r), kemSecret) == Some(cek)
  {}

  // ---- Messages ----

  datatype MessagePayload = MessagePayload(m: Message, signature: Octets)

  function EncryptMessage(s: Suite, text: Octets, rs: seq<Recipient>, dsaSecret: Octets, context: Octets,
                          cek: Octets, iv: Octets): MessagePayload
  {
    WrappedValid(s, cek, rs);
    var m := Message(iv, s.seal(cek, iv, text), Wrapped(s, cek, rs));
    MessagePayload(m, s.sign(dsaSecret, MessageTranscript(m, context)))
  }

  function DecryptMessage(s: Suite, p: MessagePayload, name: Octets, kemSecret: Octets, dsaPub: Octets,
                          context: Octets): Result<Octets, Error>
    requires ValidKeys(p.m.keys)
  {
    if !s.verify(dsaPub, MessageTranscript(p.m, context), p.signature) then Err(NotAuthentic)
    else if name !in p.m.keys.entries then Err(NotAddressed)
    else Opened(s, UnwrapCek(s, p.m.keys.entries[name], kemSecret), p.m.iv, p.m.ct)
  }

  /** Decrypting under a content key that may not have come out. */
  function Opened(s: Suite, cek: Option<Octets>, iv: Octets, ct: Octets): Result<Octets, Error> {
    if cek.None? then Err(CannotOpen)
    else match s.unseal(cek.value, iv, ct)
      case None => Err(CannotOpen)
      case Some(text) => Ok(text)
  }

  /** Every party reads back the text, and nobody else gets past the addressing check. */
  lemma MessageRoundTrip(s: Suite, text: Octets, rs: seq<Recipient>, dsaSecret: Octets, dsaPub: Octets,
                         context: Octets, cek: Octets, iv: Octets, name: Octets, kemSecret: Octets)
    requires Correct(s) && s.dsaPair(dsaPub, dsaSecret)
    requires forall i :: LastOfName(rs, i) && rs[i].name == name ==> s.kemPair(rs[i].kemPub, kemSecret)
    ensures var p := EncryptMessage(s, text, rs, dsaSecret, context, cek, iv);
         && ValidKeys(p.m.keys)
         && DecryptMessage(s, p, name, kemSecret, dsaPub, context) ==
            if exists i :: LastOfName(rs, i) && rs[i].name == name then Ok(text) else Err(NotAddressed)
  {
    WrappedValid(s, cek, rs);
    if name in Wrapped(s, cek, rs).entries {
      var i := WrappedOnly(s, cek, rs, name);
    }
    if i :| LastOfName(rs, i) && rs[i].name == name {
      WrappedEntry(s, cek, rs, i);
      WrappedOpens(s, cek, rs[i], kemSecret);
    }
  }

  // ---- Files ----

  datatype FilePayload =
    | V2(f: File, signature: Octets)
    | V1(o: OldFile, signature: Octets)

  function KeysOf(p: FilePayload): Keys {
    match p
    case V2(f, _) => f.keys
    case V1(o, _) => o.keys
  }

  function EncryptFile(s: Suite, bytes: Octets, meta: Octets, rs: seq<Recipient>, dsaSecret: Octets,
                       context: Octets, cek: Octets, iv: Octets, metaIv: Octets): (Octets, FilePayload)
  {
    WrappedValid(s, cek, rs);
    var cipherBytes := s.seal(cek, iv, bytes);
    var f := File(iv, metaIv, s.sha256(cipherBytes), s.seal(cek, metaIv, meta), Wrapped(s, cek, rs));
    (cipherBytes, V2(f, s.sign(dsaSecret, FileTranscript(f, context))))
  }

  function VerifyFilePayload(s: Suite, p: FilePayload, dsaPub: Octets, context: Octets): bool
    requires ValidKeys(KeysOf(p))
  {
    match p
    case V2(f, signature) => s.verify(dsaPub, FileTranscript(f, context), signature)
    case V1(o, signature) => s.verify(dsaPub, OldFileTranscript(o, context), signature)
  }

  datatype FileCard = FileCard(meta: Octets, verified: bool, legacy: bool)

  function OpenFilePayload(s: Suite, p: FilePayload, name: Octets, kemSecret: Octets, dsaPub: Octets,
                           context: Octets): Result<FileCard, Error>
    requires ValidKeys(KeysOf(p))
  {
    match p
    case V1(o, _) => Ok(FileCard(o.info, VerifyFilePayload(s, p, dsaPub, context), true))
    case V2(f, _) =>
      if !VerifyFilePayload(s, p, dsaPub, context) then Err(NotAuthentic)
      else if name !in f.keys.entries then Err(NotAddressed)
      else match Opened(s, UnwrapCek(s, f.keys.entries[name], kemSecret), f.metaIv, f.metaCt)
        case Err(e) => Err(e)
        case Ok(meta) => Ok(FileCard(meta, true, false))
  }

  function DecryptFile(s: Suite, cipherBytes: Octets, p: FilePayload, name: Octets, kemSecret: Octets,
                       dsaPub: Octets, context: Octets): Result<Octets, Error>
    requires ValidKeys(KeysOf(p))
  {
    if !VerifyFilePayload(s, p, dsaPub, context) then Err(NotAuthentic)
    else if p.V2? && s.sha256(cipherBytes) != p.f.ctSha then Err(ContentsDiffer)
    else if name !in KeysOf(p).entries then Err(NotAddressed)
    else Opened(s, UnwrapCek(s, KeysOf(p).entries[name], kemSecret), if p.V2? then p.f.iv else p.o.iv, cipherBytes)
  }

  /** Every party reads back metadata and contents; other contents are refused, whoever serves them,
      unless their hash is the signed one. */
  lemma FileRoundTrip(s: Suite, bytes: Octets, meta: Octets, rs: seq<Recipient>, dsaSecret: Octets, dsaPub: Octets,
                      context: Octets, cek: Octets, iv: Octets, metaIv: Octets, i: nat, kemSecret: Octets,
                      other: Octets)
    requires Correct(s) && s.dsaPair(dsaPub, dsaSecret)
    requires LastOfName(rs, i) && s.kemPair(rs[i].kemPub, kemSecret)
    ensures var (cipherBytes, p) := EncryptFile(s, bytes, meta, rs, dsaSecret, context, cek, iv, metaIv);
         && ValidKeys(KeysOf(p))
         && OpenFilePayload(s, p, rs[i].name, kemSecret, dsaPub, context) == Ok(FileCard(meta, true, false))
         && DecryptFile(s, cipherBytes, p, rs[i].name, kemSecret, dsaPub, context) == Ok(bytes)
         && (s.sha256(other) != s.sha256(cipherBytes) <==>
             DecryptFile(s, other, p, rs[i].name, kemSecret, dsaPub, context) == Err(ContentsDiffer))
  {
    WrappedValid(s, cek, rs);
    WrappedEntry(s, cek, rs, i);
    WrappedOpens(s, cek, rs[i], kemSecret);
  }

  /** Nobody but the parties reads a file, and it is opened or decrypted only if its signature verifies. */
  lemma FileRefused(s: Suite, cipherBytes: Octets, p: FilePayload, name: Octets, kemSecret: Octets, dsaPub: Octets,
                    context: Octets)
    requires ValidKeys(KeysOf(p))
    ensures !VerifyFilePayload(s, p, dsaPub, context) ==>
              DecryptFile(s, cipherBytes, p, name, kemSecret, dsaPub, context) == Err(NotAuthentic)
    ensures p.V2? && !VerifyFilePayload(s, p, dsaPub, context) ==>
              OpenFilePayload(s, p, name, kemSecret, dsaPub, context) == Err(NotAuthentic)
    ensures name !in KeysOf(p).entries ==> DecryptFile(s, cipherBytes, p, name, kemSecret, dsaPub, context).Err?
    ensures p.V2? && name !in KeysOf(p).entries ==> OpenFilePayload(s, p, name, kemSecret, dsaPub, context).Err?
  {}

  /** A card says that it is verified exactly if the signature is, and that it is legacy exactly for
      version 1. */
  lemma CardTells(s: Suite, p: FilePayload, name: Octets, kemSecret: Octets, dsaPub: Octets, context: Octets)
    requires ValidKeys(KeysOf(p))
    ensures var r := OpenFilePayload(s, p, name, kemSecret, dsaPub, context);
         && (r.Ok? ==> r.value.verified == VerifyFilePayload(s, p, dsaPub, context) && r.value.legacy == p.V1?)
         && (p.V1? ==> r.Ok? && r.value.meta == p.o.info)
  {}

  /** A file as older clients made it, signed without its contents, is still read by its parties. */
  lemma LegacyFileRead(s: Suite, bytes: Octets, info: Octets, rs: seq<Recipient>, dsaSecret: Octets, dsaPub: Octets,
                       context: Octets, cek: Octets, iv: Octets, i: nat, kemSecret: Octets)
    requires Correct(s) && s.dsaPair(dsaPub, dsaSecret)
    requires LastOfName(rs, i) && s.kemPair(rs[i].kemPub, kemSecret)
    ensures ValidKeys(Wrapped(s, cek, rs))
    ensures var o := OldFile(info, iv, Wrapped(s, cek, rs));
            var p := V1(o, s.sign(dsaSecret, OldFileTranscript(o, context)));
         && DecryptFile(s, s.seal(cek, iv, bytes), p, rs[i].name, kemSecret, dsaPub, context) == Ok(bytes)
         && OpenFilePayload(s, p, rs[i].name, kemSecret, dsaPub, context) == Ok(FileCard(info, true, true))
  {
    WrappedValid(s, cek, rs);
    WrappedEntry(s, cek, rs, i);
    WrappedOpens(s, cek, rs[i], kemSecret);
  }

  // ---- What a signature that cannot be forged gives the reader ----

  /** An envelope that its sender has signed for a context. */
  datatype Sent = Sent(e: Signed, context: Octets)

  ghost predicate SoundSent(x: Sent) {
    && ValidSigned(x.e) && ContextOf(x.context) && NulFree(x.context)
    && (x.e.SignedFile? ==> SizedFile(x.e.f))
    && (x.e.SignedMessage? ==> SizedMessage(x.e.m))
  }

  /** A transcript with the signature that comes with it. */
  datatype Shown = Shown(transcript: Octets, signature: Octets)

  /** Nobody has forged: of what readers have been shown, under this public key only transcripts of
      envelopes that were sent verify. */
  ghost predicate OnlySent(s: Suite, dsaPub: Octets, sent: set<Sent>, shown: set<Shown>) {
    && (forall x :: x in sent ==> SoundSent(x))
    && forall v :: v in shown && s.verify(dsaPub, v.transcript, v.signature) ==> WasSent(v.transcript, sent)
  }

  ghost predicate IsTranscriptOf(t: Octets, x: Sent) {
    SoundSent(x) && TranscriptOf(x.e, x.context) == t
  }

  ghost predicate WasSent(t: Octets, sent: set<Sent>) {
    exists x :: x in sent && IsTranscriptOf(t, x)
  }

  /** A file sent in this context whose fields run together to the same octets; when those received
      have their fixed sizes, with the same nonces and hash; and for the same parties the same in every
      field exactly when they have. */
  ghost predicate SentAsFile(x: Sent, f: File, context: Octets)
    requires ValidKeys(f.keys)
  {
    && SoundSent(x) && x.e.SignedFile? && x.context == context && Fields(x.e.f) == Fields(f)
    && (SizedFile(f) ==> x.e.f.iv == f.iv && x.e.f.metaIv == f.metaIv && x.e.f.ctSha == f.ctSha)
    && (x.e.f.keys.entries.Keys == f.keys.entries.Keys ==> (SameSigned(x.e.f, context, f, context) <==> SizedFile(f)))
  }

  /** A message of a context that begins like this one or the other way round; for the same parties
      and the same length of context, the same message exactly when what was received has its fixed
      sizes. */
  ghost predicate SentAsMessage(x: Sent, m: Message, context: Octets)
    requires ValidKeys(m.keys)
  {
    && SoundSent(x) && x.e.SignedMessage? && x.context + MessageFields(x.e.m) == context + MessageFields(m)
    && (Prefix(x.context, context) || Prefix(context, x.context))
    && (x.e.m.keys.entries.Keys == m.keys.entries.Keys && |x.context| == |context| ==>
          (SameMessage(x.e.m, x.context, m, context) <==> SizedMessage(m)))
  }

  /** A version-2 file that decrypts is one its sender signed as a file, for this very conversation,
      with contents of this hash. So neither messages, nor version-1 files, nor files of another
      conversation pass for it. */
  lemma AcceptedFileWasSent(s: Suite, dsaPub: Octets, sent: set<Sent>, shown: set<Shown>, cipherBytes: Octets,
                            p: FilePayload, name: Octets, kemSecret: Octets, context: Octets)
    requires p.V2? && ValidKeys(p.f.keys) && ContextOf(context) && NulFree(context)
    requires OnlySent(s, dsaPub, sent, shown) && Shown(FileTranscript(p.f, context), p.signature) in shown
    requires DecryptFile(s, cipherBytes, p, name, kemSecret, dsaPub, context).Ok?
    ensures p.f.ctSha == s.sha256(cipherBytes)
    ensures exists x :: x in sent && SentAsFile(x, p.f, context)
  {
    assert WasSent(FileTranscript(p.f, context), sent);
    var x :| x in sent && IsTranscriptOf(FileTranscript(p.f, context), x);
    KindsSeparate(x.e, x.context, SignedFile(p.f), context);
    FileTranscriptsEqual(x.e.f, x.context, p.f, context);
    if SizedFile(p.f) { SizedFieldsEqual(x.e.f, p.f); }
    if x.e.f.keys.entries.Keys == p.f.keys.entries.Keys {
      FileTranscriptInjective(x.e.f, x.context, p.f, context);
    }
    assert SentAsFile(x, p.f, context);
  }

  /** A message that decrypts is one its sender signed as a message. */
  lemma AcceptedMessageWasSent(s: Suite, dsaPub: Octets, sent: set<Sent>, shown: set<Shown>, p: MessagePayload,
                               name: Octets, kemSecret: Octets, context: Octets)
    requires ValidKeys(p.m.keys) && ContextOf(context)
    requires OnlySent(s, dsaPub, sent, shown) && Shown(MessageTranscript(p.m, context), p.signature) in shown
    requires DecryptMessage(s, p, name, kemSecret, dsaPub, context).Ok?
    ensures exists x :: x in sent && SentAsMessage(x, p.m, context)
  {
    assert WasSent(MessageTranscript(p.m, context), sent);
    var x :| x in sent && IsTranscriptOf(MessageTranscript(p.m, context), x);
    KindsSeparate(x.e, x.context, SignedMessage(p.m), context);
    MessageTranscriptsEqual(x.e.m, x.context, p.m, context);
    SharedPrefix(x.e.m, x.context, p.m, context);
    if x.e.m.keys.entries.Keys == p.m.keys.entries.Keys && |x.context| == |context| {
      MessageTranscriptInjective(x.e.m, x.context, p.m, context);
    }
    assert SentAsMessage(x, p.m, context);
  }

  /** The signature of a file is also one of the file reshaped, which is not what was sent: readers
      check no sizes. */
  lemma ReshapedVerifies(s: Suite, f: File, signature: Octets, dsaPub: Octets, context: Octets)
    requires SizedFile(f) && NulFree(context)
    ensures ValidKeys(Reshaped(f).keys) && !SameSigned(f, context, Reshaped(f), context)
    ensures VerifyFilePayload(s, V2(Reshaped(f), signature), dsaPub, context)
         == VerifyFilePayload(s, V2(f, signature), dsaPub, context)
  {
    ReshapedTranscript(f, context);
  }

  // ---- Honest senders ----

  /** Primitives with the sizes of the real ones. */
  ghost predicate Sized(s: Suite) {
    && (forall pk, coins :: |s.encapsulate(pk, coins).0| == KEM_CT)
    && (forall k, iv, text :: |s.seal(k, iv, text)| == |text| + TAG)
    && (forall bytes :: |s.sha256(bytes)| == SHA)
  }

  const CEK: nat := 32

  /** Nonces and content keys of the sizes that are drawn. */
  predicate Drawn(rs: seq<Recipient>, cek: Octets) {
    |cek| == CEK && forall r :: r in rs ==> |r.iv| == IV
  }

  lemma {:induction false} WrappedSized(s: Suite, cek: Octets, rs: seq<Recipient>)
    requires Sized(s) && Drawn(rs, cek)
    ensures SizedKeys(Wrapped(s, cek, rs))
  {
    WrappedValid(s, cek, rs);
    if |rs| > 0 {
      var k := |rs| - 1;
      assert rs[k] in rs;
      WrappedSized(s, cek, rs[..k]);
    }
  }

  /** What an honest sender makes and shows adds to what was sent and shown without a forgery: over
      any number of files and messages the premise of the two results above stays true, while every
      reader of `FileRoundTrip` and `MessageRoundTrip` accepts. */
  lemma SendingFileKeepsOnlySent(s: Suite, sent: set<Sent>, shown: set<Shown>, bytes: Octets, meta: Octets,
                                 rs: seq<Recipient>, dsaSecret: Octets, dsaPub: Octets, context: Octets,
                                 cek: Octets, iv: Octets, metaIv: Octets)
    requires Correct(s) && Sized(s) && s.dsaPair(dsaPub, dsaSecret) && OnlySent(s, dsaPub, sent, shown)
    requires Drawn(rs, cek) && |iv| == IV && |metaIv| == IV && ContextOf(context) && NulFree(context)
    ensures var p := EncryptFile(s, bytes, meta, rs, dsaSecret, context, cek, iv, metaIv).1;
         && p.V2? && SizedFile(p.f) && VerifyFilePayload(s, p, dsaPub, context)
         && OnlySent(s, dsaPub, sent + {Sent(SignedFile(p.f), context)},
                     shown + {Shown(FileTranscript(p.f, context), p.signature)})
  {
    var p := EncryptFile(s, bytes, meta, rs, dsaSecret, context, cek, iv, metaIv).1;
    WrappedSized(s, cek, rs);
    MoreSent(s, dsaPub, sent, shown, Sent(SignedFile(p.f), context), p.signature);
  }

  lemma SendingMessageKeepsOnlySent(s: Suite, sent: set<Sent>, shown: set<Shown>, text: Octets, rs: seq<Recipient>,
                                    dsaSecret: Octets, dsaPub: Octets, context: Octets, cek: Octets, iv: Octets)
    requires Correct(s) && Sized(s) && s.dsaPair(dsaPub, dsaSecret) && OnlySent(s, dsaPub, sent, shown)
    requires Drawn(rs, cek) && |iv| == IV && ContextOf(context) && NulFree(context)
    ensures var p := EncryptMessage(s, text, rs, dsaSecret, context, cek, iv);
         && SizedMessage(p.m) && s.verify(dsaPub, MessageTranscript(p.m, context), p.signature)
         && OnlySent(s, dsaPub, sent + {Sent(SignedMessage(p.m), context)},
                     shown + {Shown(MessageTranscript(p.m, context), p.signature)})
  {
    var p := EncryptMessage(s, text, rs, dsaSecret, context, cek, iv);
    WrappedSized(s, cek, rs);
    MoreSent(s, dsaPub, sent, shown, Sent(SignedMessage(p.m), context), p.signature);
  }

  lemma MoreSent(s: Suite, dsaPub: Octets, sent: set<Sent>, shown: set<Shown>, x: Sent, signature: Octets)
    requires OnlySent(s, dsaPub, sent, shown) && SoundSent(x)
    ensures OnlySent(s, dsaPub, sent + {x}, shown + {Shown(TranscriptOf(x.e, x.context), signature)})
  {
    var more, seen := sent + {x}, shown + {Shown(TranscriptOf(x.e, x.context), signature)};
    forall v | v in seen && s.verify(dsaPub, v.transcript, v.signature)
      ensures WasSent(v.transcript, more)
    {
      if v in shown {
        assert WasSent(v.transcript, sent);
        var y :| y in sent && IsTranscriptOf(v.transcript, y);
        assert y in more;
      } else {
        assert x in more && IsTranscriptOf(v.transcript, x);
      }
    }
  }

  /** Primitives without secrets: the premises above can all be met at once. */
  function Plain(): Suite {
    Suite((pk, coins) => (Zeros(KEM_CT), pk), (kemCt, sk) => sk, (secret: Octets) => secret,
          (k, iv, text) => text + Zeros(TAG),
          (k, iv, ct: Octets) => if |ct| < TAG then None else Some(ct[..|ct| - TAG]),
          (sk, t) => t, (pk, t, sig) => t == sig, (bytes: Octets) => Zeros(SHA),
          (pk, sk) => pk == sk, (pk, sk) => pk == sk)
  }

  lemma PlainIsCorrect()
    ensures Correct(Plain()) && Sized(Plain())
  {
    var s := Plain();
    forall k: Octets, iv: Octets, text: Octets
      ensures s.unseal(k, iv, s.seal(k, iv, text)) == Some(text)
    {
      assert (text + Zeros(TAG))[..|text|] == text;
    }
  }

  /** An instance: a file sent under such primitives is accepted under the premises of
      `AcceptedFileWasSent`, all of which hold. */
  lemma HonestSenderExists(bytes: Octets, meta: Octets, r: Recipient, pk: Octets)
    requires |r.iv| == IV
    ensures var s := Plain();
         && Correct(s) && Sized(s) && s.dsaPair(pk, pk)
         && var (ct, p) := EncryptFile(s, bytes, meta, [r], pk, [], Zeros(CEK), Zeros(IV), Zeros(IV));
         && p.V2? && SizedFile(p.f)
         && OnlySent(s, pk, {Sent(SignedFile(p.f), [])}, {Shown(FileTranscript(p.f, []), p.signature)})
         && DecryptFile(s, ct, p, r.name, r.kemPub, pk, []) == Ok(bytes)
  {
    var s := Plain();
    PlainIsCorrect();
    SendingFileKeepsOnlySent(s, {}, {}, bytes, meta, [r], pk, pk, [], Zeros(CEK), Zeros(IV), Zeros(IV));
    FileRoundTrip(s, bytes, meta, [r], pk, pk, [], Zeros(CEK), Zeros(IV), Zeros(IV), 0, r.kemPub, []);
    var p := EncryptFile(s, bytes, meta, [r], pk, [], Zeros(CEK), Zeros(IV), Zeros(IV)).1;
    assert {} + {Sent(SignedFile(p.f), [])} == {Sent(SignedFile(p.f), [])};
    assert {} + {Shown(FileTranscript(p.f, []), p.signature)} == {Shown(FileTranscript(p.f, []), p.signature)};
  }

  /** And so is the file reshaped, although it is not what was sent: the premise that nothing was
      forged does not exclude it, and decryption need not fail. */
  lemma ReshapedIsRead(bytes: Octets, meta: Octets, r: Recipient, pk: Octets)
    requires |r.iv| == IV
    ensures var s := Plain();
            var (ct, p) := EncryptFile(s, bytes, meta, [r], pk, [], Zeros(CEK), Zeros(IV), Zeros(IV));
         && p.V2? && SizedFile(p.f)
         && var q := V2(Reshaped(p.f), p.signature);
            ValidKeys(KeysOf(q)) && !SameSigned(p.f, [], q.f, [])
            && OnlySent(s, pk, {Sent(SignedFile(p.f), [])}, {Shown(FileTranscript(q.f, []), q.signature)})
            && DecryptFile(s, ct, q, r.name, r.kemPub, pk, []) == Ok(bytes)
  {
    var s := Plain();
    var (ct, p) := EncryptFile(s, bytes, meta, [r], pk, [], Zeros(CEK), Zeros(IV), Zeros(IV));
    HonestSenderExists(bytes, meta, r, pk);
    ReshapedVerifies(s, p.f, p.signature, pk, []);
    ReshapedTranscript(p.f, []);
  }
}
