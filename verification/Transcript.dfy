/** What an envelope's signature covers (client/js/crypto.js:41-47, 83-90, 121, 156-167, 199-200):
    the byte strings, which fields they determine, and which kinds of envelope they keep apart.

    User names and contexts are the octets that TextEncoder makes of them. The relay admits only
    ASCII user names (server/models.py:17), whose octets are their code units, so `sort()` orders
    them as here. */
module Transcript {
  import opened Bytes
  import opened Options

  type Octets = seq<Byte>

  // ---- The order of user names ----

  predicate Below(a: Octets, b: Octets) {
    |b| > 0 && (|a| == 0 || a[0] < b[0] || (a[0] == b[0] && Below(a[1..], b[1..])))
  }

  lemma {:induction false} BelowTotal(a: Octets, b: Octets)
    ensures a == b || Below(a, b) || Below(b, a)
  {
    if |a| > 0 && |b| > 0 && a[0] == b[0] {
      BelowTotal(a[1..], b[1..]);
      assert a == [a[0]] + a[1..] && b == [b[0]] + b[1..];
    }
  }

  lemma {:induction false} BelowOrders(a: Octets, b: Octets, c: Octets)
    requires Below(a, b)
    ensures !Below(b, a) && a != b
    ensures Below(b, c) ==> Below(a, c)
  {
    if |a| > 0 && a[0] == b[0] {
      BelowOrders(a[1..], b[1..], if |c| > 0 then c[1..] else []);
    }
  }

  function Insert(name: Octets, names: seq<Octets>): seq<Octets> {
    if |names| == 0 || Below(name, names[0]) then [name] + names
    else [names[0]] + Insert(name, names[1..])
  }

  /** `names.sort()`. */
  function Sort(names: seq<Octets>): seq<Octets> {
    if |names| == 0 then [] else Insert(names[0], Sort(names[1..]))
  }

  predicate Ordered(names: seq<Octets>) {
    forall i, j :: 0 <= i < j < |names| ==> Below(names[i], names[j])
  }

  predicate Distinct(names: seq<Octets>) {
    forall i, j :: 0 <= i < j < |names| ==> names[i] != names[j]
  }

  ghost predicate SameNames(s: seq<Octets>, t: seq<Octets>) {
    forall n :: n in s <==> n in t
  }

  lemma {:induction false} InsertOrdered(name: Octets, names: seq<Octets>)
    requires Ordered(names) && name !in names
    ensures Ordered(Insert(name, names)) && SameNames(Insert(name, names), [name] + names)
  {
    if |names| == 0 {
    } else if Below(name, names[0]) {
      forall j | 0 < j < |names| ensures Below(name, names[j]) {
        BelowOrders(name, names[0], names[j]);
      }
    } else {
      BelowTotal(name, names[0]);
      InsertOrdered(name, names[1..]);
      var rest := Insert(name, names[1..]);
      forall j | 0 <= j < |rest| ensures Below(names[0], rest[j]) {
        assert rest[j] in [name] + names[1..];
      }
      assert names == [names[0]] + names[1..];
    }
  }

  lemma {:induction false} SortOrdered(names: seq<Octets>)
    requires Distinct(names)
    ensures Ordered(Sort(names)) && SameNames(Sort(names), names)
  {
    if |names| > 0 {
      SortOrdered(names[1..]);
      InsertOrdered(names[0], Sort(names[1..]));
      assert names == [names[0]] + names[1..];
    }
  }

  lemma OrderedDistinct(names: seq<Octets>)
    requires Ordered(names)
    ensures Distinct(names)
  {
    forall i, j | 0 <= i < j < |names| ensures names[i] != names[j] {
      BelowOrders(names[i], names[j], []);
    }
  }

  lemma OrderedHead(s: seq<Octets>, t: seq<Octets>)
    requires Ordered(s) && Ordered(t) && SameNames(s, t) && |s| > 0 && |t| > 0
    ensures s[0] == t[0]
  {
    assert s[0] in t && t[0] in s;
    if s[0] != t[0] {
      assert Below(t[0], s[0]);
      BelowOrders(t[0], s[0], []);
    }
  }

  lemma SomeName(s: seq<Octets>, t: seq<Octets>)
    requires SameNames(s, t) && |s| > 0
    ensures |t| > 0
  {
    assert s[0] in t;
  }

  lemma {:induction false} OrderedUnique(s: seq<Octets>, t: seq<Octets>)
    requires Ordered(s) && Ordered(t) && SameNames(s, t)
    ensures s == t
  {
    if |s| == 0 {
      if |t| > 0 { SomeName(t, s); }
    } else {
      assert s[0] in t;
      OrderedHead(s, t);
      OrderedDistinct(s);
      OrderedDistinct(t);
      forall n ensures n in s[1..] <==> n in t[1..] {
        assert n in s <==> n in t;
      }
      OrderedUnique(s[1..], t[1..]);
    }
  }

  // ---- Wrapped keys ----

  datatype KeyEntry = KeyEntry(kemCt: Octets, iv: Octets, wrapped: Octets)

  /** The object of wrapped keys, with its property names in the order in which they were set. */
  datatype Keys = Keys(order: seq<Octets>, entries: map<Octets, KeyEntry>)

  ghost predicate ValidKeys(k: Keys) {
    Distinct(k.order) && forall n :: n in k.order <==> n in k.entries
  }

  const NO_KEYS := Keys([], map[])

  /** `keys[name] = entry`. */
  function Put(k: Keys, name: Octets, entry: KeyEntry): Keys {
    Keys(if name in k.entries then k.order else k.order + [name], k.entries[name := entry])
  }

  lemma PutValid(k: Keys, name: Octets, entry: KeyEntry)
    requires ValidKeys(k)
    ensures ValidKeys(Put(k, name, entry))
  {}

  function EntryOctets(e: KeyEntry): Octets {
    e.kemCt + e.iv + e.wrapped
  }

  /** The wrapped keys of these parties, one after the other. */
  function Tail(names: seq<Octets>, entries: map<Octets, KeyEntry>): Octets
    requires forall n :: n in names ==> n in entries
  {
    if |names| == 0 then []
    else names[0] + EntryOctets(entries[names[0]]) + Tail(names[1..], entries)
  }

  /** The party names of an envelope, sorted. */
  function Parties(k: Keys): (names: seq<Octets>) { Sort(k.order) }

  lemma PartiesKnown(k: Keys)
    requires ValidKeys(k)
    ensures Ordered(Parties(k)) && forall n :: n in Parties(k) <==> n in k.entries
  {
    SortOrdered(k.order);
    assert SameNames(Parties(k), k.order);
  }

  function KeyTail(k: Keys): Octets
    requires ValidKeys(k)
  {
    PartiesKnown(k);
    Tail(Parties(k), k.entries)
  }

  /** The transcript of `buildTranscript`. */
  function Transcript(prefix: Octets, iv: Octets, ct: Octets, keys: Keys): Octets
    requires ValidKeys(keys)
  {
    prefix + iv + ct + KeyTail(keys)
  }

  /** Transcripts do not depend on the order in which the parties were wrapped. */
  lemma WrapOrderIrrelevant(prefix: Octets, iv: Octets, ct: Octets, a: Keys, b: Keys)
    requires ValidKeys(a) && ValidKeys(b) && a.entries == b.entries
    ensures Parties(a) == Parties(b) && Transcript(prefix, iv, ct, a) == Transcript(prefix, iv, ct, b)
  {
    PartiesKnown(a);
    PartiesKnown(b);
    OrderedUnique(Parties(a), Parties(b));
  }

  // ---- Building it ----

  function Flat(arrays: seq<Octets>): Octets {
    if |arrays| == 0 then [] else Flat(arrays[..|arrays| - 1]) + arrays[|arrays| - 1]
  }

  lemma FlatNext(arrays: seq<Octets>, i: nat)
    requires i < |arrays|
    ensures Flat(arrays[..i + 1]) == Flat(arrays[..i]) + arrays[i]
  {
    assert arrays[..i + 1][..i] == arrays[..i];
  }

  method TotalLength(arrays: seq<Octets>) returns (n: nat)
    ensures n == |Flat(arrays)|
  {
    n := 0;
    for i := 0 to |arrays|
      invariant n == |Flat(arrays[..i])|
    {
      FlatNext(arrays, i);
      n := n + |arrays[i]|;
    }
    assert arrays[..|arrays|] == arrays;
  }

  /** `out.set(a, off)`. */
  method SetAt(out: array<Byte>, a: Octets, off: nat)
    requires off + |a| <= out.Length
    modifies out
    ensures out[..off] == old(out[..off]) && out[off..off + |a|] == a
  {
    for k := 0 to |a|
      invariant out[..off] == old(out[..off])
      invariant forall j :: 0 <= j < k ==> out[off + j] == a[j]
    {
      out[off + k] := a[k];
    }
  }

  lemma {:induction false} FlatGrows(arrays: seq<Octets>, i: nat)
    requires i <= |arrays|
    ensures |Flat(arrays[..i])| <= |Flat(arrays)|
    decreases |arrays| - i
  {
    if i == |arrays| {
      assert arrays[..i] == arrays;
    } else {
      FlatNext(arrays, i);
      FlatGrows(arrays, i + 1);
    }
  }

  method Concat(arrays: seq<Octets>) returns (r: Octets)
    ensures r == Flat(arrays)
  {
    var total := TotalLength(arrays);
    var out := new Byte[total](_ => 0);
    var off := 0;
    for i := 0 to |arrays|
      invariant off == |Flat(arrays[..i])| <= out.Length
      invariant out[..off] == Flat(arrays[..i])
    {
      FlatNext(arrays, i);
      FlatGrows(arrays, i + 1);
      SetAt(out, arrays[i], off);
      assert out[..off + |arrays[i]|] == out[..off] + out[off..off + |arrays[i]|];
      off := off + |arrays[i]|;
    }
    assert arrays[..|arrays|] == arrays;
    r := out[..];
  }

  lemma FlatThree(a: Octets, b: Octets, c: Octets)
    ensures Flat([a, b, c]) == a + b + c
  {
    FlatNext([a, b, c], 0);
    FlatNext([a, b, c], 1);
    FlatNext([a, b, c], 2);
    assert [a, b, c][..3] == [a, b, c];
    assert a == [] + a;
  }

  lemma FlatParty(t: Octets, name: Octets, e: KeyEntry)
    ensures Flat([t, name, e.kemCt, e.iv, e.wrapped]) == t + (name + EntryOctets(e))
  {
    var parts := [t, name, e.kemCt, e.iv, e.wrapped];
    FlatThree(t, name, e.kemCt);
    assert parts[..3] == [t, name, e.kemCt];
    FlatNext(parts, 3);
    FlatNext(parts, 4);
    assert parts[..5] == parts;
  }

  lemma {:induction false} TailNext(names: seq<Octets>, entries: map<Octets, KeyEntry>, i: nat)
    requires (forall n :: n in names ==> n in entries) && i < |names|
    ensures Tail(names[..i + 1], entries) == Tail(names[..i], entries) + (names[i] + EntryOctets(entries[names[i]]))
    decreases i
  {
    assert names[..i + 1][1..] == names[1..][..i];
    if i > 0 {
      assert names[..i][1..] == names[1..][..i - 1];
      TailNext(names[1..], entries, i - 1);
    }
  }

  method BuildTranscript(prefix: Octets, ivContent: Octets, ciphertext: Octets, keys: Keys) returns (t: Octets)
    requires ValidKeys(keys)
    ensures t == Transcript(prefix, ivContent, ciphertext, keys)
  {
    t := Concat([prefix, ivContent, ciphertext]);
    FlatThree(prefix, ivContent, ciphertext);
    ghost var start := t;
    PartiesKnown(keys);
    var names := Sort(keys.order);
    for i := 0 to |names|
      invariant t == start + Tail(names[..i], keys.entries)
    {
      var k := keys.entries[names[i]];
      t := AddParty(t, names[i], k);
      TailNext(names, keys.entries, i);
    }
    assert names[..|names|] == names;
  }

  method AddParty(t: Octets, name: Octets, k: KeyEntry) returns (r: Octets)
    ensures r == t + (name + EntryOctets(k))
  {
    FlatParty(t, name, k);
    r := Concat([t, name, k.kemCt, k.iv, k.wrapped]);
  }

  // ---- What the tail determines ----

  /** Sizes in octets: an ML-KEM-768 ciphertext, an AES-GCM nonce, a wrapped 256-bit key with its
      tag, a SHA-256 value. */
  const KEM_CT: nat := 1088
  const IV: nat := 12
  const WRAPPED: nat := 48
  const SHA: nat := 32
  const ENTRY: nat := KEM_CT + IV + WRAPPED

  /** AES-GCM appends a tag to every ciphertext. */
  const TAG: nat := 16

  function Zeros(n: nat): (r: Octets)
    ensures |r| == n
  {
    seq(n, _ => 0)
  }

  predicate SizedEntry(e: KeyEntry) {
    |e.kemCt| == KEM_CT && |e.iv| == IV && |e.wrapped| == WRAPPED
  }

  ghost predicate SizedKeys(k: Keys) {
    ValidKeys(k) && forall n :: n in k.entries ==> SizedEntry(k.entries[n])
  }

  /** What of the tail is fixed by the names alone: Some octet of a name, None for a wrapped key. */
  function Shape(names: seq<Octets>): seq<Option<Byte>> {
    if |names| == 0 then []
    else
      seq(|names[0]|, i requires 0 <= i < |names[0]| => Some(names[0][i]))
      + seq(ENTRY, _ => None)
      + Shape(names[1..])
  }

  predicate Matches(s: Octets, p: seq<Option<Byte>>) {
    |s| == |p| && forall i :: 0 <= i < |p| && p[i].Some? ==> s[i] == p[i].value
  }

  lemma {:induction false} TailMatches(names: seq<Octets>, entries: map<Octets, KeyEntry>)
    requires forall n :: n in names ==> n in entries && SizedEntry(entries[n])
    ensures Matches(Tail(names, entries), Shape(names))
  {
    if |names| > 0 {
      TailMatches(names[1..], entries);
    }
  }

  /** Reading a tail back, knowing the names. */
  function Read(names: seq<Octets>, s: Octets): map<Octets, KeyEntry>
    requires |s| == |Shape(names)|
  {
    if |names| == 0 then map[]
    else
      var k := |names[0]|;
      var e := KeyEntry(s[k..k + KEM_CT], s[k + KEM_CT..k + KEM_CT + IV], s[k + KEM_CT + IV..k + ENTRY]);
      Read(names[1..], s[k + ENTRY..])[names[0] := e]
  }

  lemma {:induction false} TailUnaffected(names: seq<Octets>, m: map<Octets, KeyEntry>, other: Octets, e: KeyEntry)
    requires (forall n :: n in names ==> n in m) && other !in names
    ensures Tail(names, m[other := e]) == Tail(names, m)
  {
    if |names| > 0 { TailUnaffected(names[1..], m, other, e); }
  }

  lemma MatchesRest(names: seq<Octets>, s: Octets)
    requires |names| > 0 && Matches(s, Shape(names))
    ensures s[..|names[0]|] == names[0] && Matches(s[|names[0]| + ENTRY..], Shape(names[1..]))
  {
    var k := |names[0]|;
    forall i | 0 <= i < k ensures s[i] == names[0][i] {
      assert Shape(names)[i] == Some(names[0][i]);
    }
    var rest := Shape(names[1..]);
    forall i | 0 <= i < |rest| ensures Shape(names)[k + ENTRY + i] == rest[i] {}
  }

  lemma SplitParty(s: Octets, name: Octets)
    requires |s| >= |name| + ENTRY && s[..|name|] == name
    ensures var k := |name|;
         && var e := KeyEntry(s[k..k + KEM_CT], s[k + KEM_CT..k + KEM_CT + IV], s[k + KEM_CT + IV..k + ENTRY]);
         && SizedEntry(e) && s == name + EntryOctets(e) + s[k + ENTRY..]
  {}

  lemma {:induction false} ReadTail(names: seq<Octets>, s: Octets)
    requires Distinct(names) && Matches(s, Shape(names))
    ensures forall n :: n in names <==> n in Read(names, s)
    ensures forall n :: n in names ==> SizedEntry(Read(names, s)[n])
    ensures Tail(names, Read(names, s)) == s
  {
    if |names| > 0 {
      MatchesRest(names, s);
      SplitParty(s, names[0]);
      ReadTail(names[1..], s[|names[0]| + ENTRY..]);
      ReadMore(names, s);
    }
  }

  lemma ReadMore(names: seq<Octets>, s: Octets)
    requires Distinct(names) && |names| > 0 && |s| == |Shape(names)|
    requires var rest := s[|names[0]| + ENTRY..];
          && (forall n :: n in names[1..] <==> n in Read(names[1..], rest))
          && (forall n :: n in names[1..] ==> SizedEntry(Read(names[1..], rest)[n]))
          && Tail(names[1..], Read(names[1..], rest)) == rest
    ensures forall n :: n in names <==> n in Read(names, s)
    ensures forall n :: n in names ==> SizedEntry(Read(names, s)[n])
    ensures Tail(names, Read(names, s)) == names[0] + EntryOctets(Read(names, s)[names[0]]) + s[|names[0]| + ENTRY..]
  {
    assert names == [names[0]] + names[1..];
    var m := Read(names[1..], s[|names[0]| + ENTRY..]);
    TailUnaffected(names[1..], m, names[0], Read(names, s)[names[0]]);
  }

  lemma EntryInjective(d: KeyEntry, e: KeyEntry)
    requires SizedEntry(d) && SizedEntry(e) && EntryOctets(d) == EntryOctets(e)
    ensures d == e
  {
    assert d.kemCt == EntryOctets(d)[..KEM_CT] && e.kemCt == EntryOctets(e)[..KEM_CT];
    assert d.iv == EntryOctets(d)[KEM_CT..KEM_CT + IV] && e.iv == EntryOctets(e)[KEM_CT..KEM_CT + IV];
    assert d.wrapped == EntryOctets(d)[KEM_CT + IV..] && e.wrapped == EntryOctets(e)[KEM_CT + IV..];
  }

  lemma SplitEqual(a: Octets, x: Octets, b: Octets, y: Octets)
    requires a + x == b + y && (|a| == |b| || |x| == |y|)
    ensures a == b && x == y
  {
    assert a == (a + x)[..|a|] && b == (b + y)[..|b|];
    assert x == (a + x)[|a|..] && y == (b + y)[|b|..];
  }

  lemma {:induction false} TailInjective(names: seq<Octets>, m: map<Octets, KeyEntry>, m': map<Octets, KeyEntry>)
    requires forall n :: n in names ==> n in m && n in m' && SizedEntry(m[n]) && SizedEntry(m'[n])
    requires Tail(names, m) == Tail(names, m')
    ensures forall n :: n in names ==> m[n] == m'[n]
  {
    if |names| > 0 {
      var n := names[0];
      SplitEqual(n + EntryOctets(m[n]), Tail(names[1..], m), n + EntryOctets(m'[n]), Tail(names[1..], m'));
      SplitEqual(n, EntryOctets(m[n]), n, EntryOctets(m'[n]));
      EntryInjective(m[n], m'[n]);
      TailInjective(names[1..], m, m');
    }
  }

  /** Same parties: what comes before the wrapped keys and the wrapped keys are both determined. */
  lemma KeysDetermined(x: Octets, a: Keys, y: Octets, b: Keys)
    requires SizedKeys(a) && SizedKeys(b) && a.entries.Keys == b.entries.Keys
    ensures x + KeyTail(a) == y + KeyTail(b) <==> x == y && a.entries == b.entries
  {
    PartiesKnown(a);
    PartiesKnown(b);
    OrderedUnique(Parties(a), Parties(b));
    var names := Parties(a);
    TailMatches(names, a.entries);
    TailMatches(names, b.entries);
    if x + KeyTail(a) == y + KeyTail(b) {
      SplitEqual(x, KeyTail(a), y, KeyTail(b));
      TailInjective(names, a.entries, b.entries);
    }
  }

  // ---- Version-2 files ----

  /** "lattix-file-v2" and "msg" in ASCII, and the octets `{`, `g` and `:`. */
  const FILE_V2: Octets := [108, 97, 116, 116, 105, 120, 45, 102, 105, 108, 101, 45, 118, 50]
  const MSG: Octets := [109, 115, 103]
  const BRACE: Byte := 123
  const LETTER_G: Byte := 103
  const COLON: Byte := 58

  /** What the signature of a version-2 file is to cover. */
  datatype File = File(iv: Octets, metaIv: Octets, ctSha: Octets, metaCt: Octets, keys: Keys)

  ghost predicate SizedFile(f: File) {
    |f.iv| == IV && |f.metaIv| == IV && |f.ctSha| == SHA && SizedKeys(f.keys)
  }

  predicate NulFree(context: Octets) {
    0 !in context
  }

  /** `fileV2Transcript`. */
  function FileTranscript(f: File, context: Octets): Octets
    requires ValidKeys(f.keys)
  {
    Transcript(FILE_V2 + [0] + context + [0], f.iv + f.metaIv + f.ctSha, f.metaCt, f.keys)
  }

  method FileV2Transcript(f: File, context: Octets) returns (t: Octets)
    requires ValidKeys(f.keys)
    ensures t == FileTranscript(f, context)
  {
    FlatThree(f.iv, f.metaIv, f.ctSha);
    var fixedPart := Concat([f.iv, f.metaIv, f.ctSha]);
    t := BuildTranscript(FILE_V2 + [0] + context + [0], fixedPart, f.metaCt, f.keys);
  }

  /** The delimiter ends the context. */
  lemma ContextDelimited(c: Octets, x: Octets, d: Octets, y: Octets)
    requires NulFree(c) && NulFree(d) && c + [0] + x == d + [0] + y
    ensures c == d && x == y
  {
    var s := c + [0] + x;
    assert s[|c|] == 0 && s[|d|] == 0;
    assert forall i :: 0 <= i < |c| ==> s[i] == c[i] && c[i] in c;
    assert forall i :: 0 <= i < |d| ==> s[i] == d[i] && d[i] in d;
    SplitEqual(c + [0], x, d + [0], y);
    SplitEqual(c, [0], d, [0]);
  }

  /** The head of a file transcript, split off. */
  lemma FileParts(f: File, context: Octets)
    requires ValidKeys(f.keys)
    ensures FileTranscript(f, context) ==
            (FILE_V2 + [0]) + (context + [0] + ((f.iv + (f.metaIv + f.ctSha)) + (f.metaCt + KeyTail(f.keys))))
  {}

  /** The signed fields, one after the other as they are in the transcript. */
  function Fields(f: File): Octets
    requires ValidKeys(f.keys)
  {
    f.iv + f.metaIv + f.ctSha + f.metaCt + KeyTail(f.keys)
  }

  /** Two file transcripts are equal exactly when the contexts are and the fields run together to the
      same octets, whatever the sizes of the fields. */
  lemma FileTranscriptsEqual(f: File, c: Octets, g: File, d: Octets)
    requires ValidKeys(f.keys) && ValidKeys(g.keys) && NulFree(c) && NulFree(d)
    ensures FileTranscript(f, c) == FileTranscript(g, d) <==> c == d && Fields(f) == Fields(g)
  {
    FileHead(f, c);
    FileHead(g, d);
    if FileTranscript(f, c) == FileTranscript(g, d) {
      SplitEqual(FILE_V2 + [0], c + [0] + Fields(f), FILE_V2 + [0], d + [0] + Fields(g));
      ContextDelimited(c, Fields(f), d, Fields(g));
    }
  }

  lemma FileHead(f: File, context: Octets)
    requires ValidKeys(f.keys)
    ensures FileTranscript(f, context) == (FILE_V2 + [0]) + (context + [0] + Fields(f))
  {}

  /** Of fixed sizes, the fields before the metadata are determined one by one. */
  lemma SizedFieldsEqual(f: File, g: File)
    requires SizedFile(f) && SizedFile(g)
    ensures Fields(f) == Fields(g) <==>
            f.iv == g.iv && f.metaIv == g.metaIv && f.ctSha == g.ctSha
            && f.metaCt + KeyTail(f.keys) == g.metaCt + KeyTail(g.keys)
  {
    var x, y := f.metaCt + KeyTail(f.keys), g.metaCt + KeyTail(g.keys);
    FieldsSplit(f);
    FieldsSplit(g);
    if Fields(f) == Fields(g) {
      SplitEqual(f.iv, f.metaIv + (f.ctSha + x), g.iv, g.metaIv + (g.ctSha + y));
      SplitEqual(f.metaIv, f.ctSha + x, g.metaIv, g.ctSha + y);
      SplitEqual(f.ctSha, x, g.ctSha, y);
    }
  }

  lemma FieldsSplit(f: File)
    requires ValidKeys(f.keys)
    ensures Fields(f) == f.iv + (f.metaIv + (f.ctSha + (f.metaCt + KeyTail(f.keys))))
  {}

  ghost predicate SameSigned(f: File, c: Octets, g: File, d: Octets) {
    c == d && f.(keys := NO_KEYS) == g.(keys := NO_KEYS) && f.keys.entries == g.keys.entries
  }

  /** For the same parties, a file of fixed sizes has its transcript in common with any file exactly
      the same, and of other files only with some whose fields have other sizes. */
  lemma FileTranscriptInjective(f: File, c: Octets, g: File, d: Octets)
    requires SizedFile(f) && ValidKeys(g.keys) && NulFree(c) && NulFree(d)
    requires f.keys.entries.Keys == g.keys.entries.Keys
    ensures SameSigned(f, c, g, d) <==> FileTranscript(f, c) == FileTranscript(g, d) && SizedFile(g)
  {
    FileTranscriptsEqual(f, c, g, d);
    if SameSigned(f, c, g, d) { SizedAlike(f, g); }
    if SizedFile(g) {
      SizedFieldsEqual(f, g);
      KeysDetermined(f.metaCt, f.keys, g.metaCt, g.keys);
    }
  }

  lemma SizedAlike(f: File, g: File)
    requires SizedFile(f) && ValidKeys(g.keys) && SameSigned(f, [], g, [])
    ensures SizedFile(g)
  {
    KeysAlike(f.keys, g.keys);
  }

  lemma KeysAlike(a: Keys, b: Keys)
    requires SizedKeys(a) && ValidKeys(b) && a.entries == b.entries
    ensures SizedKeys(b)
  {
    forall n | n in b.entries
      ensures SizedEntry(b.entries[n])
    {
      assert n in a.entries;
    }
  }

  /** A file with the last octet of its nonce moved on to the next field. */
  function Reshaped(f: File): File
    requires |f.iv| == IV
  {
    f.(iv := f.iv[..IV - 1], metaIv := f.iv[IV - 1..] + f.metaIv)
  }

  /** It has the transcript of the file, and is not of fixed sizes. */
  lemma ReshapedTranscript(f: File, context: Octets)
    requires SizedFile(f) && NulFree(context)
    ensures FileTranscript(Reshaped(f), context) == FileTranscript(f, context)
    ensures Reshaped(f).keys == f.keys && Reshaped(f).iv != f.iv && !SizedFile(Reshaped(f))
  {
    assert f.iv == f.iv[..IV - 1] + f.iv[IV - 1..];
    FileTranscriptsEqual(f, context, Reshaped(f), context);
  }

  // ---- Different parties ----

  /** Laid over each other with their ends aligned, the two shapes fix no octet differently. */
  predicate Overlay(p: seq<Option<Byte>>, q: seq<Option<Byte>>) {
    forall k :: 0 <= k < |p| && k < |q| ==> Agree(FromEnd(p, k), FromEnd(q, k))
  }

  function FromEnd(p: seq<Option<Byte>>, k: nat): Option<Byte>
    requires k < |p|
  {
    p[|p| - 1 - k]
  }

  predicate Agree(a: Option<Byte>, b: Option<Byte>) {
    a.Some? && b.Some? ==> a == b
  }

  /** Two payloads, one for each list of parties, that differ and share a transcript. */
  ghost predicate Shared(f: File, c: Octets, g: File, d: Octets, s: seq<Octets>, t: seq<Octets>) {
    && SizedFile(f) && SizedFile(g) && NulFree(c) && NulFree(d)
    && Parties(f.keys) == s && Parties(g.keys) == t
    && !SameSigned(f, c, g, d)
    && FileTranscript(f, c) == FileTranscript(g, d)
  }

  lemma SharedOverlay(f: File, c: Octets, g: File, d: Octets, s: seq<Octets>, t: seq<Octets>)
    requires Shared(f, c, g, d, s, t)
    ensures s != t && Overlay(Shape(s), Shape(t))
  {
    PartiesKnown(f.keys);
    PartiesKnown(g.keys);
    if s == t {
      assert forall n :: n in f.keys.entries <==> n in g.keys.entries;
      FileTranscriptInjective(f, c, g, d);
    }
    FileTranscriptsEqual(f, c, g, d);
    SizedFieldsEqual(f, g);
    TailMatches(s, f.keys.entries);
    TailMatches(t, g.keys.entries);
    EndsOverlay(f.metaCt, KeyTail(f.keys), Shape(s), g.metaCt, KeyTail(g.keys), Shape(t));
  }

  /** Ends of the same octets. */
  lemma EndsOverlay(x: Octets, a: Octets, p: seq<Option<Byte>>, y: Octets, b: Octets, q: seq<Option<Byte>>)
    requires x + a == y + b && Matches(a, p) && Matches(b, q)
    ensures Overlay(p, q)
  {
    var u := x + a;
    forall k | 0 <= k < |p| && k < |q| ensures Agree(FromEnd(p, k), FromEnd(q, k)) {
      assert u[|u| - 1 - k] == a[|a| - 1 - k];
      assert u[|u| - 1 - k] == b[|b| - 1 - k];
    }
  }

  /** An octet, counted from the end, that fits both shapes. */
  function Fill(p: seq<Option<Byte>>, q: seq<Option<Byte>>, k: nat): Byte {
    if k < |p| && FromEnd(p, k).Some? then FromEnd(p, k).value
    else if k < |q| && FromEnd(q, k).Some? then FromEnd(q, k).value else 0
  }

  lemma EndMatches(u: Octets, p: seq<Option<Byte>>)
    requires |p| <= |u|
    requires forall k :: 0 <= k < |p| && FromEnd(p, k).Some? ==> u[|u| - 1 - k] == FromEnd(p, k).value
    ensures Matches(u[|u| - |p|..], p)
  {
    forall i | 0 <= i < |p| && p[i].Some? ensures u[|u| - |p| + i] == p[i].value {
      assert FromEnd(p, |p| - 1 - i) == p[i];
    }
  }

  function FilledOctets(p: seq<Option<Byte>>, q: seq<Option<Byte>>, n: nat): (u: Octets)
    ensures |u| == n
  {
    seq(n, i requires 0 <= i < n => Fill(p, q, n - 1 - i))
  }

  lemma FilledAt(p: seq<Option<Byte>>, q: seq<Option<Byte>>, n: nat, k: nat)
    requires k < n
    ensures FilledOctets(p, q, n)[n - 1 - k] == Fill(p, q, k)
  {}

  /** Their ends match both shapes. */
  lemma FilledMatches(p: seq<Option<Byte>>, q: seq<Option<Byte>>, n: nat)
    requires Overlay(p, q) && |p| <= n && |q| <= n
    ensures Matches(FilledOctets(p, q, n)[n - |p|..], p) && Matches(FilledOctets(p, q, n)[n - |q|..], q)
  {
    var u := FilledOctets(p, q, n);
    forall k | 0 <= k < |p| && FromEnd(p, k).Some? ensures u[n - 1 - k] == FromEnd(p, k).value {
      FilledAt(p, q, n, k);
    }
    forall k | 0 <= k < |q| && FromEnd(q, k).Some? ensures u[n - 1 - k] == FromEnd(q, k).value {
      FilledAt(p, q, n, k);
      if k < |p| { assert Agree(FromEnd(p, k), FromEnd(q, k)); }
    }
    EndMatches(u, p);
    EndMatches(u, q);
  }

  /** A file whose metadata and wrapped keys run together to u. */
  function Made(names: seq<Octets>, u: Octets): File
    requires |Shape(names)| <= |u|
  {
    var k := |u| - |Shape(names)|;
    File(Zeros(IV), Zeros(IV), Zeros(SHA), u[..k], Keys(names, Read(names, u[k..])))
  }

  lemma MadeSized(names: seq<Octets>, u: Octets)
    requires Ordered(names) && |Shape(names)| <= |u| && Matches(u[|u| - |Shape(names)|..], Shape(names))
    ensures SizedFile(Made(names, u)) && Parties(Made(names, u).keys) == names
    ensures Made(names, u).metaCt + KeyTail(Made(names, u).keys) == u
  {
    var k := |u| - |Shape(names)|;
    OrderedDistinct(names);
    ReadTail(names, u[k..]);
    SortOrdered(names);
    OrderedUnique(Sort(names), names);
    assert u == u[..k] + u[k..];
  }

  /** ... with metadata of at least n octets. */
  ghost predicate SharedLong(f: File, c: Octets, g: File, d: Octets, s: seq<Octets>, t: seq<Octets>, n: nat) {
    Shared(f, c, g, d, s, t) && |f.metaCt| >= n && |g.metaCt| >= n
  }

  lemma MadeShared(s: seq<Octets>, t: seq<Octets>, u: Octets, n: nat)
    requires Ordered(s) && Ordered(t) && s != t && |Shape(s)| + n <= |u| && |Shape(t)| + n <= |u|
    requires Matches(u[|u| - |Shape(s)|..], Shape(s)) && Matches(u[|u| - |Shape(t)|..], Shape(t))
    ensures SharedLong(Made(s, u), [], Made(t, u), [], s, t, n)
  {
    MadeSized(s, u);
    MadeSized(t, u);
    var f, g := Made(s, u), Made(t, u);
    FileTranscriptsEqual(f, [], g, []);
    SizedFieldsEqual(f, g);
    if f.keys.entries == g.keys.entries {
      PartiesKnown(f.keys);
      PartiesKnown(g.keys);
      OrderedUnique(s, t);
    }
  }

  lemma OverlayShared(s: seq<Octets>, t: seq<Octets>, n: nat)
    requires Ordered(s) && Ordered(t) && s != t && Overlay(Shape(s), Shape(t))
    ensures exists f, c, g, d :: SharedLong(f, c, g, d, s, t, n)
  {
    var p, q := Shape(s), Shape(t);
    var len := |p| + |q| + n;
    FilledMatches(p, q, len);
    MadeShared(s, t, FilledOctets(p, q, len), n);
  }

  /** Two lists of parties admit different payloads of fixed sizes with one transcript exactly when the
      lists differ and their shapes lay over each other, and then with metadata of any length. */
  lemma SharedTranscripts(s: seq<Octets>, t: seq<Octets>, n: nat)
    requires Ordered(s) && Ordered(t)
    ensures (exists f, c, g, d :: Shared(f, c, g, d, s, t)) <==> s != t && Overlay(Shape(s), Shape(t))
    ensures (exists f, c, g, d :: SharedLong(f, c, g, d, s, t, n)) <==> s != t && Overlay(Shape(s), Shape(t))
  {
    if f, c, g, d :| Shared(f, c, g, d, s, t) {
      SharedOverlay(f, c, g, d, s, t);
    }
    if s != t && Overlay(Shape(s), Shape(t)) {
      OverlayShared(s, t, n);
      var f, c, g, d :| SharedLong(f, c, g, d, s, t, n);
      assert Shared(f, c, g, d, s, t);
    }
  }

  // ---- Fields of other sizes ----

  /** Wrapped keys that are empty, but for what the last party's holds. */
  function LastOnly(names: seq<Octets>, x: Octets): map<Octets, KeyEntry>
    requires |names| > 0
  {
    map name | name in names :: KeyEntry([], [], if name == names[|names| - 1] then x else [])
  }

  lemma LastOnlyAt(names: seq<Octets>, x: Octets, i: nat)
    requires Distinct(names) && i < |names|
    ensures names[i] in LastOnly(names, x)
    ensures EntryOctets(LastOnly(names, x)[names[i]]) == if i == |names| - 1 then x else []
  {
    assert i < |names| - 1 ==> names[i] != names[|names| - 1];
  }

  lemma {:induction false} EmptyTail(names: seq<Octets>, m: map<Octets, KeyEntry>, k: nat)
    requires k <= |names| && forall n :: n in names ==> n in m
    requires forall i :: 0 <= i < k ==> EntryOctets(m[names[i]]) == []
    ensures Tail(names[..k], m) == Flat(names[..k])
  {
    if k > 0 {
      EmptyTail(names, m, k - 1);
      TailNext(names, m, k - 1);
      FlatNext(names, k - 1);
    }
  }

  lemma TailWithLast(names: seq<Octets>, m: map<Octets, KeyEntry>, x: Octets, k: nat)
    requires |names| == k + 1 && forall n :: n in names ==> n in m
    requires forall i :: 0 <= i < k ==> EntryOctets(m[names[i]]) == []
    requires EntryOctets(m[names[k]]) == x
    ensures Tail(names, m) == Flat(names) + x
  {
    EmptyTail(names, m, k);
    TailNext(names, m, k);
    FlatNext(names, k);
    assert names[..k + 1] == names;
    Associate(Flat(names[..k]), names[k], x);
  }

  lemma Associate(a: Octets, b: Octets, c: Octets)
    ensures a + (b + c) == (a + b) + c
  {}

  lemma LastTail(names: seq<Octets>, x: Octets)
    requires Distinct(names) && |names| > 0
    ensures Tail(names, LastOnly(names, x)) == Flat(names) + x
  {
    var m := LastOnly(names, x);
    forall i | 0 <= i < |names|
      ensures EntryOctets(m[names[i]]) == if i == |names| - 1 then x else []
    {
      LastOnlyAt(names, x, i);
    }
    TailWithLast(names, m, x, |names| - 1);
  }

  /** A file of other sizes, for these parties, whose last wrapped key ends in x. */
  function Stuffed(names: seq<Octets>, metaCt: Octets, x: Octets): File
    requires |names| > 0
  {
    File(Zeros(IV), Zeros(IV), Zeros(SHA), metaCt, Keys(names, LastOnly(names, x)))
  }

  lemma StuffedFields(names: seq<Octets>, metaCt: Octets, x: Octets)
    requires Ordered(names) && |names| > 0
    ensures var g := Stuffed(names, metaCt, x);
         && ValidKeys(g.keys) && Parties(g.keys) == names
         && Fields(g) == Zeros(IV) + Zeros(IV) + Zeros(SHA) + metaCt + (Flat(names) + x)
  {
    OrderedDistinct(names);
    SortOrdered(names);
    OrderedUnique(Sort(names), names);
    LastTail(names, x);
  }

  lemma Regroup(a: Octets, b: Octets, c: Octets, d: Octets, e: Octets)
    ensures a + (b + c + d) + e == a + b + (c + (d + e))
  {}

  /** When only one of two payloads has its fixed sizes, every two lists of parties admit different
      payloads with one transcript, the same list twice among them: the wrapped keys of the other can
      hold whatever is needed. */
  lemma SharedWithOtherSizes(f: File, t: seq<Octets>, context: Octets)
    requires SizedFile(f) && Ordered(t) && |t| > 0 && NulFree(context)
    ensures var g := Stuffed(t, f.metaCt, [0] + KeyTail(f.keys));
         && ValidKeys(g.keys) && Parties(g.keys) == t
         && var h := f.(iv := Zeros(IV), metaIv := Zeros(IV), ctSha := Zeros(SHA), metaCt := f.metaCt + Flat(t) + [0]);
            SizedFile(h) && Parties(h.keys) == Parties(f.keys) && h.metaCt != g.metaCt
            && FileTranscript(h, context) == FileTranscript(g, context)
  {
    var g := Stuffed(t, f.metaCt, [0] + KeyTail(f.keys));
    var h := f.(iv := Zeros(IV), metaIv := Zeros(IV), ctSha := Zeros(SHA), metaCt := f.metaCt + Flat(t) + [0]);
    StuffedFields(t, f.metaCt, [0] + KeyTail(f.keys));
    Regroup(Zeros(IV) + Zeros(IV) + Zeros(SHA), f.metaCt, Flat(t), [0], KeyTail(f.keys));
    FileTranscriptsEqual(h, context, g, context);
    assert |h.metaCt| > |g.metaCt|;
  }

  // ---- A pair of payloads with one transcript ----

  /** "bob" and "abob" in ASCII. */
  const BOB: Octets := [98, 111, 98]
  const ABOB: Octets := [97, 98, 111, 98]

  const BLANK_ENTRY := KeyEntry(Zeros(KEM_CT), Zeros(IV), Zeros(WRAPPED))

  /** A file for one party. */
  function FileFor(name: Octets, metaCt: Octets): File {
    File(Zeros(IV), Zeros(IV), Zeros(SHA), metaCt, Keys([name], map[name := BLANK_ENTRY]))
  }

  lemma FileForOne(name: Octets, metaCt: Octets)
    ensures SizedFile(FileFor(name, metaCt)) && Parties(FileFor(name, metaCt).keys) == [name]
    ensures KeyTail(FileFor(name, metaCt).keys) == name + EntryOctets(BLANK_ENTRY)
  {
    var entries := map[name := BLANK_ENTRY];
    assert [name][1..] == [];
    assert Sort([name]) == [name];
    assert Tail([name], entries) == name + EntryOctets(BLANK_ENTRY) + Tail([], entries);
  }

  /** The first letter of a name may as well be the last octet of the metadata: a file for "abob" and
      one for "bob" with one octet more of metadata have one transcript, whatever the length. */
  lemma BobAndAbob(metaCt: Octets)
    ensures var f, g := FileFor(BOB, metaCt + [ABOB[0]]), FileFor(ABOB, metaCt);
         && SizedFile(f) && SizedFile(g) && Parties(f.keys) == [BOB] && Parties(g.keys) == [ABOB]
         && f.metaCt != g.metaCt && FileTranscript(f, []) == FileTranscript(g, [])
  {
    var f, g := FileFor(BOB, metaCt + [ABOB[0]]), FileFor(ABOB, metaCt);
    FileForOne(BOB, metaCt + [ABOB[0]]);
    FileForOne(ABOB, metaCt);
    assert [ABOB[0]] + BOB == ABOB;
    assert f.metaCt + KeyTail(f.keys) == g.metaCt + KeyTail(g.keys);
    SizedFieldsEqual(f, g);
    FileTranscriptsEqual(f, [], g, []);
    assert |f.metaCt| != |g.metaCt|;
  }

  // ---- Messages ----

  /** What the signature of a message is to cover. */
  datatype Message = Message(iv: Octets, ct: Octets, keys: Keys)

  ghost predicate SizedMessage(m: Message) {
    |m.iv| == IV && SizedKeys(m.keys)
  }

  function MessageTranscript(m: Message, context: Octets): Octets
    requires ValidKeys(m.keys)
  {
    Transcript(MSG + context, m.iv, m.ct, m.keys)
  }

  function MessageFields(m: Message): Octets
    requires ValidKeys(m.keys)
  {
    m.iv + m.ct + KeyTail(m.keys)
  }

  /** Two message transcripts are equal exactly when context and fields run together to the same
      octets, whatever the parties and sizes. */
  lemma MessageTranscriptsEqual(m: Message, c: Octets, n: Message, d: Octets)
    requires ValidKeys(m.keys) && ValidKeys(n.keys)
    ensures MessageTranscript(m, c) == MessageTranscript(n, d) <==> c + MessageFields(m) == d + MessageFields(n)
  {
    assert MessageTranscript(m, c) == MSG + (c + MessageFields(m));
    assert MessageTranscript(n, d) == MSG + (d + MessageFields(n));
    if MSG + (c + MessageFields(m)) == MSG + (d + MessageFields(n)) {
      SplitEqual(MSG, c + MessageFields(m), MSG, d + MessageFields(n));
    }
  }

  ghost predicate SameMessage(m: Message, c: Octets, n: Message, d: Octets) {
    c == d && m.iv == n.iv && m.ct == n.ct && m.keys.entries == n.keys.entries
  }

  /** For the same parties, within one conversation and between contexts of one length such as those of
      two groups, a message of fixed sizes has its transcript in common with exactly the same message,
      and of others only with some whose fields have other sizes. */
  lemma MessageTranscriptInjective(m: Message, c: Octets, n: Message, d: Octets)
    requires SizedMessage(m) && ValidKeys(n.keys) && m.keys.entries.Keys == n.keys.entries.Keys
    requires |c| == |d|
    ensures SameMessage(m, c, n, d) <==> MessageTranscript(m, c) == MessageTranscript(n, d) && SizedMessage(n)
  {
    MessageTranscriptsEqual(m, c, n, d);
    if SameMessage(m, c, n, d) { KeysAlike(m.keys, n.keys); }
    if SizedMessage(n) { SizedMessageEqual(m, c, n, d); }
  }

  lemma SizedMessageEqual(m: Message, c: Octets, n: Message, d: Octets)
    requires SizedMessage(m) && SizedMessage(n) && m.keys.entries.Keys == n.keys.entries.Keys
    requires |c| == |d|
    ensures c + MessageFields(m) == d + MessageFields(n) <==> SameMessage(m, c, n, d)
  {
    var x, y := c + (m.iv + m.ct), d + (n.iv + n.ct);
    assert c + MessageFields(m) == x + KeyTail(m.keys) && d + MessageFields(n) == y + KeyTail(n.keys);
    KeysDetermined(x, m.keys, y, n.keys);
    if x == y {
      SplitEqual(c, m.iv + m.ct, d, n.iv + n.ct);
      SplitEqual(m.iv, m.ct, n.iv, n.ct);
    }
  }

  predicate Prefix(c: Octets, d: Octets) {
    |c| <= |d| && d[..|c|] == c
  }

  ghost predicate SharedMessage(m: Message, c: Octets, n: Message, d: Octets) {
    ValidKeys(m.keys) && ValidKeys(n.keys) && MessageTranscript(m, c) == MessageTranscript(n, d)
  }

  /** ... of fixed sizes, with these wrapped keys and ciphertexts of at least a tag. */
  ghost predicate SharedMessageFor(m: Message, c: Octets, n: Message, d: Octets, keys: Keys) {
    && SharedMessage(m, c, n, d) && SizedMessage(m) && SizedMessage(n)
    && m.keys == keys && n.keys == keys && |m.ct| >= TAG && |n.ct| >= TAG
  }

  lemma LongerContextShared(c: Octets, d: Octets, keys: Keys)
    requires Prefix(c, d) && SizedKeys(keys)
    ensures exists m, n :: SharedMessageFor(m, c, n, d, keys)
  {
    var w := d[|c|..] + (Zeros(IV) + Zeros(TAG));
    var m, n := Message(w[..IV], w[IV..], keys), Message(Zeros(IV), Zeros(TAG), keys);
    assert w == m.iv + m.ct && d == c + d[|c|..];
    assert c + (m.iv + m.ct) == d + (n.iv + n.ct);
    assert c + MessageFields(m) == c + (m.iv + m.ct) + KeyTail(keys);
    assert d + MessageFields(n) == d + (n.iv + n.ct) + KeyTail(keys);
    MessageTranscriptsEqual(m, c, n, d);
    assert SharedMessageFor(m, c, n, d, keys);
  }

  lemma SharedPrefix(m: Message, c: Octets, n: Message, d: Octets)
    requires SharedMessage(m, c, n, d)
    ensures Prefix(c, d) || Prefix(d, c)
  {
    var x, y := m.iv + m.ct + KeyTail(m.keys), n.iv + n.ct + KeyTail(n.keys);
    assert MessageTranscript(m, c) == MSG + (c + x) && MessageTranscript(n, d) == MSG + (d + y);
    SplitEqual(MSG, c + x, MSG, d + y);
    if |c| <= |d| {
      assert d[..|c|] == (d + y)[..|c|] == (c + x)[..|c|] == c;
    } else {
      assert c[..|d|] == (c + x)[..|d|] == (d + y)[..|d|] == d;
    }
  }

  /** Two contexts admit messages with one transcript exactly when one is a prefix of the other, and
      then for any parties: the contexts of two groups with ids of one length never do. */
  lemma MessageContextsApart(c: Octets, d: Octets, keys: Keys)
    requires SizedKeys(keys)
    ensures (exists m, n :: SharedMessage(m, c, n, d)) <==> Prefix(c, d) || Prefix(d, c)
    ensures (exists m, n :: SharedMessageFor(m, c, n, d, keys)) <==> Prefix(c, d) || Prefix(d, c)
  {
    if m, n :| SharedMessage(m, c, n, d) {
      SharedPrefix(m, c, n, d);
    }
    if Prefix(c, d) {
      LongerContextShared(c, d, keys);
      var m, n :| SharedMessageFor(m, c, n, d, keys);
      assert SharedMessage(m, c, n, d);
    } else if Prefix(d, c) {
      LongerContextShared(d, c, keys);
      var n, m :| SharedMessageFor(n, d, m, c, keys);
      assert SharedMessageFor(m, c, n, d, keys) && SharedMessage(m, c, n, d);
    }
  }

  // ---- Version-1 files ----

  /** What the signature of a version-1 file covers; `info` is the JSON text of name, type and size. */
  datatype OldFile = OldFile(info: Octets, iv: Octets, keys: Keys)

  ghost predicate ValidOldFile(f: OldFile) {
    |f.info| > 0 && f.info[0] == BRACE && ValidKeys(f.keys)
  }

  function OldFileTranscript(f: OldFile, context: Octets): Octets
    requires ValidKeys(f.keys)
  {
    Transcript(context + f.info, f.iv, [], f.keys)
  }

  /** The contexts in use: empty for a 1:1 chat, "g:" and the id for a group (client/js/app.js:1771). */
  predicate ContextOf(context: Octets) {
    context == [] || (|context| >= 2 && context[0] == LETTER_G && context[1] == COLON)
  }

  // ---- The three kinds ----

  datatype Signed =
    | SignedMessage(m: Message)
    | SignedFile(f: File)
    | SignedOldFile(o: OldFile)

  ghost predicate ValidSigned(e: Signed) {
    match e
    case SignedMessage(m) => ValidKeys(m.keys)
    case SignedFile(f) => ValidKeys(f.keys)
    case SignedOldFile(o) => ValidOldFile(o)
  }

  function TranscriptOf(e: Signed, context: Octets): Octets
    requires ValidSigned(e)
  {
    match e
    case SignedMessage(m) => MessageTranscript(m, context)
    case SignedFile(f) => FileTranscript(f, context)
    case SignedOldFile(o) => OldFileTranscript(o, context)
  }

  /** Envelopes of different kinds never share a transcript, whatever their fields and contexts. */
  lemma KindsSeparate(a: Signed, c: Octets, b: Signed, d: Octets)
    requires ValidSigned(a) && ValidSigned(b) && ContextOf(c) && ContextOf(d)
    requires TranscriptOf(a, c) == TranscriptOf(b, d)
    ensures a.SignedMessage? == b.SignedMessage? && a.SignedFile? == b.SignedFile?
  {
    FirstOctet(a, c);
    FirstOctet(b, d);
  }

  lemma FirstOctet(e: Signed, context: Octets)
    requires ValidSigned(e) && ContextOf(context)
    ensures |TranscriptOf(e, context)| > 0
    ensures var first := TranscriptOf(e, context)[0];
         && (e.SignedMessage? <==> first == MSG[0])
         && (e.SignedFile? <==> first == FILE_V2[0])
         && (e.SignedOldFile? <==> first == BRACE || first == LETTER_G)
  {
    match e
    case SignedMessage(m) => assert TranscriptOf(e, context) == MSG + (context + m.iv + m.ct + KeyTail(m.keys));
    case SignedFile(f) => FileParts(f, context);
    case SignedOldFile(o) => assert TranscriptOf(e, context) == (context + o.info) + (o.iv + KeyTail(o.keys));
  }

  // ---- The transcripts, spelled out ----

  lemma Spelled()
    ensures |FILE_V2| == |"lattix-file-v2"|
    ensures forall i :: 0 <= i < |FILE_V2| ==> FILE_V2[i] == "lattix-file-v2"[i] as int
    ensures |MSG| == |"msg"| && forall i :: 0 <= i < |MSG| ==> MSG[i] == "msg"[i] as int
    ensures BRACE == '{' as int && LETTER_G == 'g' as int && COLON == ':' as int
  {}

  /** The order of user names: a beginning before the whole, and otherwise by the first letter that
      differs. */
  lemma {:induction false} BelowMeans(a: Octets, b: Octets)
    ensures Below(a, b) <==> exists k :: BelowAt(a, b, k)
  {
    if |a| > 0 && |b| > 0 && a[0] == b[0] {
      BelowMeans(a[1..], b[1..]);
      if k :| BelowAt(a[1..], b[1..], k) {
        assert a[..k + 1] == [a[0]] + a[1..][..k] && b[..k + 1] == [b[0]] + b[1..][..k];
        assert BelowAt(a, b, k + 1);
      }
      if k :| BelowAt(a, b, k) {
        assert a[1..][..k - 1] == a[..k][1..] && b[1..][..k - 1] == b[..k][1..];
        assert BelowAt(a[1..], b[1..], k - 1);
      }
    } else {
      if Below(a, b) { assert BelowAt(a, b, 0); }
      if k :| BelowAt(a, b, k) {
        if k > 0 { SameFirst(a, b, k); }
      }
    }
  }

  lemma SameFirst(a: Octets, b: Octets, k: nat)
    requires 0 < k <= |a| && k <= |b| && a[..k] == b[..k]
    ensures a[0] == b[0]
  {
    assert a[..k][0] == b[..k][0];
  }

  predicate BelowAt(a: Octets, b: Octets, k: int) {
    0 <= k <= |a| && k < |b| && a[..k] == b[..k] && (k == |a| || a[k] < b[k])
  }

  /** The keys of one party. */
  lemma OnePartyTail(name: Octets, e: KeyEntry)
    ensures ValidKeys(Keys([name], map[name := e]))
    ensures KeyTail(Keys([name], map[name := e])) == name + e.kemCt + e.iv + e.wrapped
  {
    var m := map[name := e];
    assert [name][1..] == [] && Sort([name]) == [name];
    assert Tail([name], m) == name + EntryOctets(e) + Tail([], m);
    assert name + (e.kemCt + e.iv + e.wrapped) + [] == name + e.kemCt + e.iv + e.wrapped;
  }

  /** The keys of two parties stand in the order of their names, whoever was wrapped for first. */
  lemma TwoPartyTail(a: Octets, d: KeyEntry, b: Octets, e: KeyEntry)
    requires Below(a, b)
    ensures var m := map[a := d, b := e];
         && ValidKeys(Keys([a, b], m)) && ValidKeys(Keys([b, a], m))
         && KeyTail(Keys([a, b], m)) == a + EntryOctets(d) + (b + EntryOctets(e))
         && KeyTail(Keys([b, a], m)) == KeyTail(Keys([a, b], m))
  {
    var m := map[a := d, b := e];
    BelowOrders(a, b, []);
    WrapOrderIrrelevant([], [], [], Keys([a, b], m), Keys([b, a], m));
    assert [a, b][1..] == [b] && [b][1..] == [] && Sort([b]) == [b];
    assert Sort([a, b]) == Insert(a, [b]) == [a] + [b];
    assert Tail([b], m) == b + EntryOctets(e) + Tail([], m);
    assert b + EntryOctets(e) + [] == b + EntryOctets(e);
  }

  /** What a signature covers, for one party. */
  lemma TranscriptsSpelled(f: File, m: Message, o: OldFile, context: Octets, name: Octets, e: KeyEntry)
    requires f.keys == m.keys == o.keys == Keys([name], map[name := e])
    ensures ValidKeys(f.keys) && FileTranscript(f, context) ==
            FILE_V2 + [0] + context + [0] + f.iv + f.metaIv + f.ctSha + f.metaCt + name + e.kemCt + e.iv + e.wrapped
    ensures MessageTranscript(m, context) == MSG + context + m.iv + m.ct + name + e.kemCt + e.iv + e.wrapped
    ensures OldFileTranscript(o, context) == context + o.info + o.iv + name + e.kemCt + e.iv + e.wrapped
  {
    OnePartyTail(name, e);
    Associate4(FILE_V2 + [0] + context + [0], f.iv, f.metaIv, f.ctSha);
    Associate4(FILE_V2 + [0] + context + [0] + f.iv + f.metaIv + f.ctSha + f.metaCt, name, e.kemCt, e.iv + e.wrapped);
    Associate4(MSG + context + m.iv + m.ct, name, e.kemCt, e.iv + e.wrapped);
    Associate4(context + o.info + o.iv, name, e.kemCt, e.iv + e.wrapped);
  }

  lemma Associate4(a: Octets, b: Octets, c: Octets, d: Octets)
    ensures a + (b + c + d) == a + b + c + d
  {}
}
