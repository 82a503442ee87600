/**
  Command grants: crates/agent-core/src/cmd_grant.rs. Strings are their UTF-8 bytes. SHA-256,
  Ed25519, base64 and JSON are function values; nothing is assumed of them, so a theorem that
  would need SHA-256 to be collision-free names the collision instead.
 */
module CmdGrant {
  import opened Octets

  const U64_RANGE := 0x1_0000_0000_0000_0000

  /** What a digest is computed over. */
  datatype Spec = Spec(argv: seq<Bytes>, cwd: Option<Bytes>, env: seq<Bytes>, stdin: Bytes, stdinDigest: Option<Bytes>)

  datatype CommandGrant = CommandGrant(purpose: Bytes, grantId: Bytes, nodeId: Bytes, actorId: Bytes, spec: Spec,
                                       cmdDigest: Bytes, issuedAt: int, expiresAt: int)

  datatype Refusal = NotAuthorised(why: string) | DigestMismatch | PtyRefused | StdinUndeclared
  datatype Verdict = Accepted(grant: CommandGrant) | Refused(refusal: Refusal)

  // ----- the canonical encoding

  /** The last `width` base-256 digits of `n`, most significant first. */
  function BigEndian(n: nat, width: nat): (b: Bytes)
    ensures |b| == width
  {
    if width == 0 then [] else BigEndian(n / 256, width - 1) + [n % 256]
  }

  const U64_BYTES := 8

  /** `(n as u64).to_be_bytes()`. */
  function U64(n: nat): (b: Bytes)
    ensures |b| == 8
  {
    BigEndian(n, U64_BYTES)
  }

  /** What `field` feeds to the hasher: the length, then the bytes. */
  function Field(b: Bytes): Bytes {
    U64(|b|) + b
  }

  function Fields(bs: seq<Bytes>): Bytes {
    if bs == [] then [] else Field(bs[0]) + Fields(bs[1..])
  }

  function OptionalField(v: Option<Bytes>): Bytes {
    match v
    case None => Field([0])
    case Some(b) => Field([1]) + Field(b)
  }

  /** A count field and that many fields. */
  function CountedFields(bs: seq<Bytes>): Bytes {
    Field(U64(|bs|)) + Fields(bs)
  }

  /** `argv.first()`, empty when there is none, and the rest behind it. */
  function Program(argv: seq<Bytes>): Bytes {
    if argv == [] then [] else argv[0]
  }

  function Arguments(argv: seq<Bytes>): seq<Bytes> {
    if argv == [] then [] else argv[1..]
  }

  const CMD_V1: Bytes := [97, 110, 107, 97, 121, 109, 97, 46, 99, 109, 100, 46, 118, 49] // "ankayma.cmd.v1"

  /** The byte string hashed by `cmd_digest`. */
  function Preimage(c: Spec): Bytes {
    Field(CMD_V1) + (Field(Program(c.argv)) + (CountedFields(Arguments(c.argv)) + (OptionalField(c.cwd)
    + (CountedFields(c.env) + (Field(c.stdin) + OptionalField(c.stdinDigest))))))
  }

  /** Lengths and counts are machine words, as every Rust slice length is. */
  predicate Sized(c: Spec) {
    && (forall i :: 0 <= i < |c.argv| ==> |c.argv[i]| < U64_RANGE) && |c.argv| < U64_RANGE
    && (forall i :: 0 <= i < |c.env| ==> |c.env[i]| < U64_RANGE) && |c.env| < U64_RANGE
    && |c.stdin| < U64_RANGE
    && (c.cwd.Some? ==> |c.cwd.value| < U64_RANGE) && (c.stdinDigest.Some? ==> |c.stdinDigest.value| < U64_RANGE)
  }

  function Range(width: nat): nat {
    if width == 0 then 1 else 256 * Range(width - 1)
  }

  lemma {:induction false} BigEndianInjective(m: nat, n: nat, width: nat)
    requires m < Range(width) && n < Range(width) && BigEndian(m, width) == BigEndian(n, width)
    ensures m == n
    decreases width
  {
    if width > 0 {
      var a, b := BigEndian(m, width), BigEndian(n, width);
      assert a[width - 1] == m % 256 && b[width - 1] == n % 256;
      assert a[..width - 1] == BigEndian(m / 256, width - 1) && b[..width - 1] == BigEndian(n / 256, width - 1);
      BigEndianInjective(m / 256, n / 256, width - 1);
    }
  }

  lemma U64Injective(m: nat, n: nat)
    requires m < U64_RANGE && n < U64_RANGE && U64(m) == U64(n)
    ensures m == n
  {
    assert Range(4) == 0x1_0000_0000;
    assert Range(8) == 256 * (256 * (256 * (256 * Range(4)))) == U64_RANGE;
    BigEndianInjective(m, n, U64_BYTES);
  }

  // ----- reading the encoding back

  /** What octets mean as a number, the most significant first. */
  function Value(b: Bytes): nat {
    if b == [] then 0 else Value(b[..|b| - 1]) * 256 + b[|b| - 1]
  }

  lemma {:induction false} ValueOfBigEndian(n: nat, width: nat)
    requires n < Range(width)
    ensures Value(BigEndian(n, width)) == n
    decreases width
  {
    if width > 0 {
      var b := BigEndian(n, width);
      assert b[..width - 1] == BigEndian(n / 256, width - 1) && b[width - 1] == n % 256;
      ValueOfBigEndian(n / 256, width - 1);
    }
  }

  lemma ValueOfU64(n: nat)
    requires n < U64_RANGE
    ensures Value(U64(n)) == n
  {
    assert Range(4) == 0x1_0000_0000;
    assert Range(8) == 256 * (256 * (256 * (256 * Range(4)))) == U64_RANGE;
    ValueOfBigEndian(n, U64_BYTES);
  }

  /** The fields an octet string holds, each behind its length in eight octets; none if it does not end with a field. */
  function Unframe(b: Bytes): Option<seq<Bytes>>
    decreases |b|
  {
    if b == [] then Some([])
    else if |b| < 8 || |b| < 8 + Value(b[..8]) then None
    else Behind([b[8..8 + Value(b[..8])]], Unframe(b[8 + Value(b[..8])..]))
  }

  function Behind(first: seq<Bytes>, rest: Option<seq<Bytes>>): Option<seq<Bytes>> {
    if rest.None? then None else Some(first + rest.value)
  }

  lemma UnframeField(f: Bytes, x: Bytes)
    requires |f| < U64_RANGE
    ensures Unframe(Field(f) + x) == Behind([f], Unframe(x))
  {
    hide U64, Value;
    var b := Field(f) + x;
    ValueOfU64(|f|);
    assert b[..8] == U64(|f|) && b[8..8 + |f|] == f && b[8 + |f|..] == x;
  }

  lemma BehindTwice(a: seq<Bytes>, b: seq<Bytes>, r: Option<seq<Bytes>>)
    ensures Behind(a, Behind(b, r)) == Behind(a + b, r) && Behind([], r) == r
  {
    if r.Some? {
      assert a + (b + r.value) == (a + b) + r.value && [] + r.value == r.value;
    }
  }

  lemma {:induction false} UnframeFields(fs: seq<Bytes>, x: Bytes)
    requires forall i :: 0 <= i < |fs| ==> |fs[i]| < U64_RANGE
    ensures Unframe(Fields(fs) + x) == Behind(fs, Unframe(x))
  {
    hide Field, Unframe, Behind;
    BehindTwice([], [], Unframe(x));
    if fs == [] {
      assert Fields(fs) + x == x;
    } else {
      UnframeFields(fs[1..], x);
      UnframeField(fs[0], Fields(fs[1..]) + x);
      assert Fields(fs) + x == Field(fs[0]) + (Fields(fs[1..]) + x);
      BehindTwice([fs[0]], fs[1..], Unframe(x));
      assert [fs[0]] + fs[1..] == fs;
    }
  }

  /** What an optional field is written as. */
  function Marked(v: Option<Bytes>): seq<Bytes> {
    if v.None? then [[0]] else [[1], v.value]
  }

  lemma UnframeOptional(v: Option<Bytes>, x: Bytes)
    requires v.Some? ==> |v.value| < U64_RANGE
    ensures Unframe(OptionalField(v) + x) == Behind(Marked(v), Unframe(x))
  {
    hide Field, Unframe, Behind;
    if v.Some? {
      assert OptionalField(v) + x == Field([1]) + (Field(v.value) + x);
      UnframeField([1], Field(v.value) + x);
      UnframeField(v.value, x);
      BehindTwice([[1]], [v.value], Unframe(x));
      assert [[1]] + [v.value] == Marked(v);
    } else {
      UnframeField([0], x);
    }
  }

  lemma UnframeCounted(fs: seq<Bytes>, x: Bytes)
    requires forall i :: 0 <= i < |fs| ==> |fs[i]| < U64_RANGE
    ensures Unframe(CountedFields(fs) + x) == Behind([U64(|fs|)] + fs, Unframe(x))
  {
    hide Field, Unframe, Behind, U64;
    assert CountedFields(fs) + x == Field(U64(|fs|)) + (Fields(fs) + x);
    UnframeField(U64(|fs|), Fields(fs) + x);
    UnframeFields(fs, x);
    BehindTwice([U64(|fs|)], fs, Unframe(x));
  }

  /**
    The byte string fed to the hash, read field by field: the version, the program, the number of the
    other arguments and these, the directory, the number of environment entries and these, the stdin
    mode and the stdin digest, each optional one behind a mark.
   */
  lemma PreimageReadsAs(c: Spec)
    requires Sized(c)
    ensures Unframe(Preimage(c)) ==
            Some([[97, 110, 107, 97, 121, 109, 97, 46, 99, 109, 100, 46, 118, 49]] +
                 ([if c.argv == [] then [] else c.argv[0]] +
                  (([U64(if c.argv == [] then 0 else |c.argv| - 1)] + if c.argv == [] then [] else c.argv[1..]) +
                   (Marked(c.cwd) + (([U64(|c.env|)] + c.env) + ([c.stdin] + (Marked(c.stdinDigest) + [])))))))
  {
    hide Field, Fields, Unframe, CountedFields, OptionalField, Marked, U64;
    var digest := OptionalField(c.stdinDigest);
    var stdin := Field(c.stdin) + digest;
    var env := CountedFields(c.env) + stdin;
    var cwd := OptionalField(c.cwd) + env;
    var args := CountedFields(Arguments(c.argv)) + cwd;
    EmptyUnframes(digest);
    UnframeOptional(c.stdinDigest, []);
    UnframeField(c.stdin, digest);
    UnframeCounted(c.env, stdin);
    UnframeOptional(c.cwd, env);
    UnframeCounted(Arguments(c.argv), cwd);
    UnframeField(Program(c.argv), args);
    UnframeField(CMD_V1, Field(Program(c.argv)) + args);
  }

  lemma EmptyUnframes(digest: Bytes)
    ensures Unframe([]) == Some([]) && digest + [] == digest
  {
  }

  /** A field delimits itself: equal streams that start with fields start with the same field. */
  lemma FieldSplits(a: Bytes, x: Bytes, b: Bytes, y: Bytes)
    requires |a| < U64_RANGE && |b| < U64_RANGE
    requires Field(a) + x == Field(b) + y
    ensures a == b && x == y
  {
    hide U64;
    var s, t := Field(a) + x, Field(b) + y;
    assert U64(|a|) == s[..8] == t[..8] == U64(|b|);
    U64Injective(|a|, |b|);
    assert s[8..8 + |a|] == a && t[8..8 + |a|] == b;
    assert s[8 + |a|..] == x && t[8 + |a|..] == y;
  }

  lemma {:induction false} FieldsSplit(a: seq<Bytes>, x: Bytes, b: seq<Bytes>, y: Bytes)
    requires |a| == |b|
    requires forall i :: 0 <= i < |a| ==> |a[i]| < U64_RANGE && |b[i]| < U64_RANGE
    requires Fields(a) + x == Fields(b) + y
    ensures a == b && x == y
  {
    hide Field;
    if a == [] {
      assert [] + x == x && [] + y == y;
    } else {
      assert Fields(a) + x == Field(a[0]) + (Fields(a[1..]) + x);
      assert Fields(b) + y == Field(b[0]) + (Fields(b[1..]) + y);
      FieldSplits(a[0], Fields(a[1..]) + x, b[0], Fields(b[1..]) + y);
      FieldsSplit(a[1..], x, b[1..], y);
      assert a == [a[0]] + a[1..] && b == [b[0]] + b[1..];
    }
  }

  lemma CountedFieldsSplit(a: seq<Bytes>, x: Bytes, b: seq<Bytes>, y: Bytes)
    requires |a| < U64_RANGE && |b| < U64_RANGE
    requires forall i :: 0 <= i < |a| ==> |a[i]| < U64_RANGE
    requires forall i :: 0 <= i < |b| ==> |b[i]| < U64_RANGE
    requires CountedFields(a) + x == CountedFields(b) + y
    ensures a == b && x == y
  {
    hide Field, Fields, U64;
    assert CountedFields(a) + x == Field(U64(|a|)) + (Fields(a) + x);
    assert CountedFields(b) + y == Field(U64(|b|)) + (Fields(b) + y);
    FieldSplits(U64(|a|), Fields(a) + x, U64(|b|), Fields(b) + y);
    U64Injective(|a|, |b|);
    FieldsSplit(a, x, b, y);
  }

  lemma OptionalFieldSplits(a: Option<Bytes>, x: Bytes, b: Option<Bytes>, y: Bytes)
    requires a.Some? ==> |a.value| < U64_RANGE
    requires b.Some? ==> |b.value| < U64_RANGE
    requires OptionalField(a) + x == OptionalField(b) + y
    ensures a == b && x == y
  {
    hide Field;
    var ta, tb: Byte := if a.Some? then 1 else 0, if b.Some? then 1 else 0;
    var ra, rb := if a.Some? then Field(a.value) + x else x, if b.Some? then Field(b.value) + y else y;
    assert OptionalField(a) + x == Field([ta]) + ra && OptionalField(b) + y == Field([tb]) + rb;
    FieldSplits([ta], ra, [tb], rb);
    assert ta == [ta][0] == [tb][0] == tb;
    if a.Some? {
      FieldSplits(a.value, x, b.value, y);
    }
  }

  /** The one confusion of the encoding: no arguments at all, and one empty argument. */
  function Canonical(c: Spec): Spec {
    if c.argv == [] then c.(argv := [[]]) else c
  }

  /** Two commands have the same encoding exactly when they are the same up to that confusion. */
  lemma EncodingIsInjective(c: Spec, d: Spec)
    requires Sized(c) && Sized(d)
    ensures Preimage(c) == Preimage(d) <==> Canonical(c) == Canonical(d)
  {
    hide Field, CountedFields, OptionalField, Sized;
    if Canonical(c) == Canonical(d) {
      assert Program(c.argv) == Program(d.argv) && Arguments(c.argv) == Arguments(d.argv);
    }
    if Preimage(c) == Preimage(d) {
      EncodingDetermines(c, d);
      assert Canonical(c).argv == [Program(c.argv)] + Arguments(c.argv);
      assert Canonical(d).argv == [Program(d.argv)] + Arguments(d.argv);
    }
  }

  lemma EncodingDetermines(c: Spec, d: Spec)
    requires Sized(c) && Sized(d) && Preimage(c) == Preimage(d)
    ensures Program(c.argv) == Program(d.argv) && Arguments(c.argv) == Arguments(d.argv)
    ensures c.cwd == d.cwd && c.env == d.env && c.stdin == d.stdin && c.stdinDigest == d.stdinDigest
  {
    hide Field, CountedFields, OptionalField;
    var c6, d6 := OptionalField(c.stdinDigest), OptionalField(d.stdinDigest);
    var c5, d5 := Field(c.stdin) + c6, Field(d.stdin) + d6;
    var c4, d4 := CountedFields(c.env) + c5, CountedFields(d.env) + d5;
    var c3, d3 := OptionalField(c.cwd) + c4, OptionalField(d.cwd) + d4;
    var c2, d2 := CountedFields(Arguments(c.argv)) + c3, CountedFields(Arguments(d.argv)) + d3;
    FieldSplits(CMD_V1, Field(Program(c.argv)) + c2, CMD_V1, Field(Program(d.argv)) + d2);
    FieldSplits(Program(c.argv), c2, Program(d.argv), d2);
    CountedFieldsSplit(Arguments(c.argv), c3, Arguments(d.argv), d3);
    OptionalFieldSplits(c.cwd, c4, d.cwd, d4);
    CountedFieldsSplit(c.env, c5, d.env, d5);
    FieldSplits(c.stdin, c6, d.stdin, d6);
    assert c6 + [] == c6 && d6 + [] == d6;
    OptionalFieldSplits(c.stdinDigest, [], d.stdinDigest, []);
  }

  // ----- the digest

  function HexDigit(n: nat): Byte
    requires n < 16
  {
    if n < 10 then 48 + n else 87 + n
  }

  function Hex(b: Bytes): Bytes {
    if b == [] then [] else [HexDigit(b[0] / 16), HexDigit(b[0] % 16)] + Hex(b[1..])
  }

  /** Octet by octet, the two digits the value is spelled with. */
  lemma {:induction false} HexSpells(b: Bytes, i: nat)
    requires i < |b|
    ensures |Hex(b)| == 2 * |b|
    ensures Hex(b)[2 * i] == "0123456789abcdef"[b[i] / 16] as int
    ensures Hex(b)[2 * i + 1] == "0123456789abcdef"[b[i] % 16] as int
  {
    if |b| > 1 {
      HexSpells(b[1..], if i > 0 then i - 1 else 0);
    }
    assert Hex(b) == [HexDigit(b[0] / 16), HexDigit(b[0] % 16)] + Hex(b[1..]);
    if i > 0 {
      assert Hex(b)[2 * i] == Hex(b[1..])[2 * (i - 1)] && Hex(b)[2 * i + 1] == Hex(b[1..])[2 * (i - 1) + 1];
    }
  }

  lemma {:induction false} HexOfConcat(a: Bytes, b: Bytes)
    ensures Hex(a + b) == Hex(a) + Hex(b)
  {
    if a == [] {
      assert a + b == b;
    } else {
      assert (a + b)[1..] == a[1..] + b;
      HexOfConcat(a[1..], b);
    }
  }

  lemma {:induction false} HexIsInjective(a: Bytes, b: Bytes)
    requires Hex(a) == Hex(b)
    ensures a == b
    decreases |a|
  {
    if a != [] && b != [] {
      assert Hex(a)[0] == HexDigit(a[0] / 16) && Hex(a)[1] == HexDigit(a[0] % 16) && Hex(a)[2..] == Hex(a[1..]);
      assert Hex(b)[0] == HexDigit(b[0] / 16) && Hex(b)[1] == HexDigit(b[0] % 16) && Hex(b)[2..] == Hex(b[1..]);
      HexIsInjective(a[1..], b[1..]);
      assert a == [a[0]] + a[1..] && b == [b[0]] + b[1..];
    }
  }

  /** `hex_lower`. */
  method HexLower(bytes: Bytes) returns (s: Bytes)
    ensures s == Hex(bytes)
  {
    s := [];
    for i := 0 to |bytes|
      invariant s == Hex(bytes[..i])
    {
      assert bytes[..i + 1] == bytes[..i] + [bytes[i]];
      HexOfConcat(bytes[..i], [bytes[i]]);
      s := s + [HexDigit(bytes[i] / 16), HexDigit(bytes[i] % 16)];
    }
    assert bytes[..|bytes|] == bytes;
  }

  /** The libraries behind the node: SHA-256, the base64 decoder, the CP key and the JSON reader. */
  datatype Libraries = Libraries(sha256: Bytes -> Bytes, decode64: Bytes -> Option<Bytes>,
                                 signed: (Bytes, Bytes) -> bool, parseGrant: Bytes -> Option<CommandGrant>)

  function Digest(lib: Libraries, c: Spec): Bytes {
    Hex(lib.sha256(Preimage(c)))
  }

  lemma {:induction false} FieldsOfConcat(a: seq<Bytes>, b: Bytes)
    ensures Fields(a + [b]) == Fields(a) + Field(b)
  {
    if a == [] {
      assert a + [b] == [b] && [b][1..] == [] && Fields([]) == [];
    } else {
      assert (a + [b])[1..] == a[1..] + [b];
      FieldsOfConcat(a[1..], b);
    }
  }

  /** One of the two argument loops: each element is fed as a field. */
  method FeedAll(fed: Bytes, items: seq<Bytes>) returns (h: Bytes)
    ensures h == fed + Fields(items)
  {
    hide Field;
    h := fed;
    for i := 0 to |items|
      invariant h == fed + Fields(items[..i])
    {
      assert items[..i + 1] == items[..i] + [items[i]];
      FieldsOfConcat(items[..i], items[i]);
      h := h + Field(items[i]);
    }
    assert items[..|items|] == items;
  }

  method FeedOptional(fed: Bytes, v: Option<Bytes>) returns (h: Bytes)
    ensures h == fed + OptionalField(v)
  {
    hide Field;
    if v.Some? {
      h := fed + Field([1]);
      h := h + Field(v.value);
    } else {
      h := fed + Field([0]);
    }
  }

  /** `cmd_digest`; `h` is what the hasher has been fed. */
  method CmdDigest(lib: Libraries, argv: seq<Bytes>, cwd: Option<Bytes>, env: seq<Bytes>, stdin: Bytes,
                   stdinDigest: Option<Bytes>) returns (digest: Bytes)
    ensures digest == Digest(lib, Spec(argv, cwd, env, stdin, stdinDigest))
  {
    hide Field, Fields, Hex, OptionalField, U64;
    var program, rest := if |argv| > 0 then argv[0] else [], if |argv| > 0 then argv[1..] else [];
    var h := Field(CMD_V1);
    h := h + Field(program);
    h := h + Field(U64(if |argv| > 0 then |argv| - 1 else 0));
    h := FeedAll(h, rest);
    ghost var front := Field(CMD_V1) + Field(program);
    assert h == front + CountedFields(rest);
    h := FeedOptional(h, cwd);
    h := h + Field(U64(|env|));
    h := FeedAll(h, env);
    assert h == front + CountedFields(rest) + OptionalField(cwd) + CountedFields(env);
    h := h + Field(stdin);
    h := FeedOptional(h, stdinDigest);
    hide CountedFields;
    Reassociate(Field(CMD_V1), Field(program), CountedFields(rest), OptionalField(cwd), CountedFields(env),
                Field(stdin), OptionalField(stdinDigest));
    digest := HexLower(lib.sha256(h));
  }

  lemma Reassociate(a: Bytes, b: Bytes, c: Bytes, d: Bytes, e: Bytes, f: Bytes, g: Bytes)
    ensures a + b + c + d + e + f + g == a + (b + (c + (d + (e + (f + g)))))
  {
    assert e + f + g == e + (f + g);
    assert c + d + (e + (f + g)) == c + (d + (e + (f + g)));
  }

  // ----- verification

  const PURPOSE: Bytes := [99, 109, 100, 45, 103, 114, 97, 110, 116, 45, 118, 49] // "cmd-grant-v1"
  const NONE: Bytes := [110, 111, 110, 101]
  const DECLARED: Bytes := [100, 101, 99, 108, 97, 114, 101, 100]

  datatype Split = Split(before: Bytes, after: Bytes)

  /** `split_once`: around the first occurrence of a one-byte separator. */
  function SplitOnce(s: Bytes, c: Byte): (r: Option<Split>)
    ensures r.None? <==> c !in s
    ensures r.Some? ==> s == r.value.before + [c] + r.value.after && c !in r.value.before
  {
    if s == [] then None
    else if s[0] == c then Some(Split([], s[1..]))
    else
      match SplitOnce(s[1..], c)
      case None => None
      case Some(p) => Some(Split([s[0]] + p.before, p.after))
  }

  /** The payload of a token whose signature checks against the CP key. */
  function SignedPayload(lib: Libraries, token: Bytes): Option<Bytes> {
    match SplitOnce(token, 46)
    case None => None
    case Some(p) =>
      var payload, sig := lib.decode64(p.before), lib.decode64(p.after);
      if payload.Some? && sig.Some? && |sig.value| == 64 && lib.signed(payload.value, sig.value) then payload else None
  }

  /** What makes a grant good on this node now, its digest aside. */
  predicate InForce(g: CommandGrant, nodeId: Bytes, now: int) {
    g.purpose == PURPOSE && g.nodeId == nodeId && now < g.expiresAt && g.spec.argv != [] &&
    (g.spec.stdin == NONE || g.spec.stdin == DECLARED)
  }

  /** The token carries `g`, signed by the control plane, in force, with a digest that matches. */
  predicate Authorises(lib: Libraries, nodeId: Bytes, token: Bytes, now: int, g: CommandGrant) {
    var payload := SignedPayload(lib, token);
    payload.Some? && lib.parseGrant(payload.value) == Some(g) && InForce(g, nodeId, now) &&
    g.cmdDigest == Digest(lib, g.spec)
  }

  /**
    The same octet by octet: payload and signature stand around the first dot, both are base64, the
    signature has 64 octets and the control plane's key checks it; the payload is a grant of the right
    purpose, for this node, unexpired, with a program and a known stdin mode; and its digest is the
    lower-case hex of the hash of its own preimage.
   */
  lemma AuthorisesMeans(lib: Libraries, nodeId: Bytes, token: Bytes, now: int, g: CommandGrant)
    ensures Authorises(lib, nodeId, token, now, g) <==>
            exists before: Bytes, after: Bytes ::
              token == before + [46] + after && 46 !in before &&
              lib.decode64(before).Some? && lib.decode64(after).Some? && |lib.decode64(after).value| == 64 &&
              lib.signed(lib.decode64(before).value, lib.decode64(after).value) &&
              lib.parseGrant(lib.decode64(before).value) == Some(g) &&
              g.purpose == [99, 109, 100, 45, 103, 114, 97, 110, 116, 45, 118, 49] && g.nodeId == nodeId &&
              now < g.expiresAt && g.spec.argv != [] &&
              (g.spec.stdin == [110, 111, 110, 101] || g.spec.stdin == [100, 101, 99, 108, 97, 114, 101, 100]) &&
              g.cmdDigest == Hex(lib.sha256(Preimage(g.spec)))
  {
    hide Hex, Preimage;
    forall before: Bytes, after: Bytes | token == before + [46] + after && 46 !in before
      ensures SplitOnce(token, 46) == Some(Split(before, after))
    {
      SplitIsFirst(before, 46, after);
    }
    if Authorises(lib, nodeId, token, now, g) {
      var p := SplitOnce(token, 46).value;
      assert token == p.before + [46] + p.after;
    }
  }

  lemma {:induction false} SplitIsFirst(before: Bytes, c: Byte, after: Bytes)
    requires c !in before
    ensures SplitOnce(before + [c] + after, c) == Some(Split(before, after))
  {
    var s := before + [c] + after;
    if before == [] {
      assert s[1..] == after;
    } else {
      assert s[1..] == before[1..] + [c] + after && s[0] == before[0];
      SplitIsFirst(before[1..], c, after);
      assert [before[0]] + before[1..] == before;
    }
  }

  /** The token is signed and carries a grant in force, but its digest is not the one recomputed. */
  predicate OnlyDigestWrong(lib: Libraries, nodeId: Bytes, token: Bytes, now: int) {
    var payload := SignedPayload(lib, token);
    payload.Some? && lib.parseGrant(payload.value).Some? &&
    var g := lib.parseGrant(payload.value).value;
    InForce(g, nodeId, now) && g.cmdDigest != Digest(lib, g.spec)
  }

  /**
    `CommandGrantVerifier::verify`: accepts exactly the authorised grant, and reports a digest
    mismatch exactly when nothing else is wrong with the token.
   */
  method Verify(lib: Libraries, nodeId: Bytes, token: Bytes, now: int) returns (v: Verdict)
    ensures forall g :: v == Accepted(g) <==> Authorises(lib, nodeId, token, now, g)
    ensures v == Refused(DigestMismatch) <==> OnlyDigestWrong(lib, nodeId, token, now)
    ensures v.Refused? ==> v.refusal.NotAuthorised? || v.refusal.DigestMismatch?
  {
    hide Digest;
    var halves := SplitOnce(token, 46);
    if halves.None? {
      return Refused(NotAuthorised("malformed token"));
    }
    var payload := lib.decode64(halves.value.before);
    if payload.None? {
      return Refused(NotAuthorised("payload not base64"));
    }
    var sig := lib.decode64(halves.value.after);
    if sig.None? {
      return Refused(NotAuthorised("signature not base64"));
    }
    if |sig.value| != 64 {
      return Refused(NotAuthorised("signature must be 64 bytes"));
    }
    if !lib.signed(payload.value, sig.value) {
      return Refused(NotAuthorised("signature does not verify against the CP key"));
    }
    var parsed := lib.parseGrant(payload.value);
    if parsed.None? {
      return Refused(NotAuthorised("payload is not a command grant"));
    }
    var g := parsed.value;
    if g.purpose != PURPOSE {
      return Refused(NotAuthorised("token is not a command grant"));
    }
    if g.nodeId != nodeId {
      return Refused(NotAuthorised("grant is for a different node"));
    }
    if now >= g.expiresAt {
      return Refused(NotAuthorised("grant has expired"));
    }
    if g.spec.argv == [] {
      return Refused(NotAuthorised("grant authorises no program"));
    }
    if g.spec.stdin != NONE && g.spec.stdin != DECLARED {
      return Refused(NotAuthorised("grant declares an unrecognised stdin mode"));
    }
    var recomputed := CmdDigest(lib, g.spec.argv, g.spec.cwd, g.spec.env, g.spec.stdin, g.spec.stdinDigest);
    if recomputed != g.cmdDigest {
      return Refused(DigestMismatch);
    }
    v := Accepted(g);
  }

  /**
    An authorised grant carries exactly the command its digest was computed from, or else the two
    encodings are a collision of the hash.
   */
  lemma AuthorisedCommandIsTheDigestedOne(lib: Libraries, nodeId: Bytes, token: Bytes, now: int, g: CommandGrant,
                                          c: Spec)
    requires Authorises(lib, nodeId, token, now, g) && Sized(g.spec)
    requires Sized(c) && c.argv != [] && g.cmdDigest == Digest(lib, c)
    ensures g.spec == c || (Preimage(g.spec) != Preimage(c) && lib.sha256(Preimage(g.spec)) == lib.sha256(Preimage(c)))
  {
    HexIsInjective(lib.sha256(Preimage(g.spec)), lib.sha256(Preimage(c)));
    EncodingIsInjective(g.spec, c);
  }

  // ----- the process a grant builds

  /** A process as handed to the operating system: no shell, and an environment built from nothing. */
  datatype Command = Command(argv: seq<Bytes>, cwd: Option<Bytes>, env: map<Bytes, Bytes>)

  /** The variable `k` as the entries set it: by the last `k=value` among them. */
  function EnvValue(entries: seq<Bytes>, k: Bytes): Option<Bytes> {
    if entries == [] then None
    else
      var last := SplitOnce(entries[|entries| - 1], 61);
      if last.Some? && last.value.before == k then Some(last.value.after)
      else EnvValue(entries[..|entries| - 1], k)
  }

  /** Entry by entry: a `key=value` sets its key, over any earlier one, and only that; anything else sets nothing. */
  lemma EntriesSetInOrder(entries: seq<Bytes>, key: Bytes, value: Bytes, other: Bytes, k: Bytes)
    requires 61 !in key && 61 !in other
    ensures EnvValue([], k) == None
    ensures EnvValue(entries + [key + [61] + value], k) == if k == key then Some(value) else EnvValue(entries, k)
    ensures EnvValue(entries + [other], k) == EnvValue(entries, k)
  {
    SplitIsFirst(key, 61, value);
    assert (entries + [key + [61] + value])[..|entries|] == entries && (entries + [other])[..|entries|] == entries;
  }

  /** `to_command`: the argv element by element, and a variable for each `KEY=VALUE` and nothing else. */
  method ToCommand(g: CommandGrant) returns (c: Command)
    requires g.spec.argv != []
    ensures c.argv == g.spec.argv && c.cwd == g.spec.cwd
    ensures forall k :: (if k in c.env then Some(c.env[k]) else None) == EnvValue(g.spec.env, k)
  {
    hide SplitOnce;
    var argv := [g.spec.argv[0]];
    for i := 1 to |g.spec.argv|
      invariant argv == g.spec.argv[..i]
    {
      argv := argv + [g.spec.argv[i]];
    }
    var env: map<Bytes, Bytes> := map[];
    for i := 0 to |g.spec.env|
      invariant forall k :: (if k in env then Some(env[k]) else None) == EnvValue(g.spec.env[..i], k)
    {
      var kv := SplitOnce(g.spec.env[i], 61);
      assert g.spec.env[..i + 1][..i] == g.spec.env[..i];
      if kv.Some? {
        env := env[kv.value.before := kv.value.after];
      }
    }
    assert g.spec.env[..|g.spec.env|] == g.spec.env;
    c := Command(argv, g.spec.cwd, env);
  }
}
