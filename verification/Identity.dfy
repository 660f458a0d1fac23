/** From a request to the user it is for: which identity headers are accepted, when the
    shared identity takes the place of a missing one, and how an identity becomes the name
    of a user's resources. Strings are byte strings here. */
module Identity {
  import opened Api
  import Ordering

  type Byte = b: int | 0 <= b < 256 witness 0

  type Bytes = seq<Byte>

  const NUL: Byte := 0
  const COMMA: Byte := 44
  const DASH: Byte := 45

  /** "__shared__" */
  const SHARED: Bytes := [95, 95, 115, 104, 97, 114, 101, 100, 95, 95]

  datatype Reason = Missing | Empty | TooLong | Duplicate | Invalid | Reserved

  datatype Verdict = Accepted(raw: Bytes) | Rejected(reason: Reason, status: int)

  const UNAUTHORIZED := 401
  const BAD_REQUEST := 400

  // ------------------------------------------------------------ white space

  /** The length of the white-space character, in UTF-8, that s begins with; or 0. */
  function SpaceLength(s: Bytes): (n: nat)
    ensures n <= |s|
  {
    if |s| >= 1 && (9 <= s[0] <= 13 || s[0] == 32) then 1
    else if |s| >= 2 && s[0] == 0xC2 && (s[1] == 0x85 || s[1] == 0xA0) then 2
    else if |s| >= 3 && WideSpace(s[0], s[1], s[2]) then 3
    else 0
  }

  /** U+1680, U+2000 to U+200A, U+2028, U+2029, U+202F, U+205F and U+3000. */
  predicate WideSpace(a: Byte, b: Byte, c: Byte) {
    || (a == 0xE1 && b == 0x9A && c == 0x80)
    || (a == 0xE2 && b == 0x80 && (0x80 <= c <= 0x8A || c == 0xA8 || c == 0xA9 || c == 0xAF))
    || (a == 0xE2 && b == 0x81 && c == 0x9F)
    || (a == 0xE3 && b == 0x80 && c == 0x80)
  }

  /** Nothing is left of s once white space is trimmed. */
  predicate Blank(s: Bytes)
    decreases |s|
  {
    s == [] || (SpaceLength(s) > 0 && Blank(s[SpaceLength(s)..]))
  }

  // -------------------------------------------------------------- extraction

  predicate Printable(b: Byte) { 0x20 <= b <= 0x7e }

  /** The first check that fails decides. */
  function Judge(values: seq<Bytes>, maxLength: int): Verdict {
    if |values| == 0 then Rejected(Missing, UNAUTHORIZED)
    else if |values| > 1 then Rejected(Duplicate, BAD_REQUEST)
    else
      var raw := values[0];
      if COMMA in raw then Rejected(Duplicate, BAD_REQUEST)
      else if Blank(raw) then Rejected(Empty, UNAUTHORIZED)
      else if |raw| > maxLength then Rejected(TooLong, UNAUTHORIZED)
      else if exists i :: 0 <= i < |raw| && !Printable(raw[i]) then Rejected(Invalid, BAD_REQUEST)
      else if raw == SHARED then Rejected(Reserved, BAD_REQUEST)
      else Accepted(raw)
  }

  method TrimmedIsEmpty(s: Bytes) returns (blank: bool)
    ensures blank <==> Blank(s)
  {
    var rest := s;
    while SpaceLength(rest) > 0
      invariant Blank(s) <==> Blank(rest)
      decreases |rest|
    {
      rest := rest[SpaceLength(rest)..];
    }
    return rest == [];
  }

  /** The checks in the order the code makes them, with its scan over the bytes. */
  method Extract(values: seq<Bytes>, maxLength: int) returns (v: Verdict)
    ensures v == Judge(values, maxLength)
  {
    if |values| == 0 {
      return Rejected(Missing, UNAUTHORIZED);
    } else if |values| > 1 {
      return Rejected(Duplicate, BAD_REQUEST);
    }
    var raw := values[0];
    if COMMA in raw {
      return Rejected(Duplicate, BAD_REQUEST);
    }
    var blank := TrimmedIsEmpty(raw);
    if blank {
      return Rejected(Empty, UNAUTHORIZED);
    }
    if |raw| > maxLength {
      return Rejected(TooLong, UNAUTHORIZED);
    }
    for i := 0 to |raw|
      invariant forall j :: 0 <= j < i ==> Printable(raw[j])
    {
      if raw[i] < 0x20 || raw[i] > 0x7e {
        assert !Printable(raw[i]);
        return Rejected(Invalid, BAD_REQUEST);
      }
    }
    if raw == SHARED {
      return Rejected(Reserved, BAD_REQUEST);
    }
    return Accepted(raw);
  }

  /** What is accepted is exactly the one header value that is printable ASCII with
      neither comma nor only spaces, no longer than allowed, and not the reserved one;
      it is passed on whole. */
  lemma AcceptsExactly(values: seq<Bytes>, maxLength: int, raw: Bytes)
    ensures Judge(values, maxLength) == Accepted(raw) <==>
      && values == [raw]
      && (forall i :: 0 <= i < |raw| ==> Printable(raw[i]) && raw[i] != COMMA)
      && (exists i :: 0 <= i < |raw| && raw[i] != 32)
      && |raw| <= maxLength && raw != SHARED
  {
    if |values| == 1 {
      assert values == [values[0]];
      if forall i :: 0 <= i < |values[0]| ==> Printable(values[0][i]) {
        BlankPrintable(values[0]);
      }
    }
  }

  /** And what is rejected is so for the first of these reasons, with its status: no header;
      more than one, or a comma; nothing but white space; too long; a byte that is no
      printable ASCII; the reserved identity. */
  lemma RejectsExactly(values: seq<Bytes>, maxLength: int)
    ensures var v := Judge(values, maxLength);
      && (v == Rejected(Missing, 401) <==> values == [])
      && (v == Rejected(Duplicate, 400) <==> |values| > 1 || (|values| == 1 && 44 in values[0]))
      && (|values| == 1 && 44 !in values[0] ==>
            var raw := values[0];
            var printable := forall i :: 0 <= i < |raw| ==> 32 <= raw[i] < 127;
            && (v == Rejected(Empty, 401) <==> Blank(raw))
            && (!Blank(raw) ==> (v == Rejected(TooLong, 401) <==> |raw| > maxLength))
            && (!Blank(raw) && |raw| <= maxLength ==> (v == Rejected(Invalid, 400) <==> !printable))
            && (!Blank(raw) && |raw| <= maxLength && printable ==>
                  (v == Rejected(Reserved, 400) <==> raw == [95, 95, 115, 104, 97, 114, 101, 100, 95, 95])))
  {
    if |values| == 1 {
      var raw := values[0];
      assert (forall i :: 0 <= i < |raw| ==> 32 <= raw[i] < 127) <==> !exists i :: 0 <= i < |raw| && !Printable(raw[i]);
    }
  }

  /** Nothing but white space: for ASCII, tabs, line breaks and blanks; and each of the
      wider characters that count as white space. */
  lemma {:induction false} BlankExactly(s: Bytes)
    ensures (forall i :: 0 <= i < |s| ==> s[i] < 128) ==>
      (Blank(s) <==> forall i :: 0 <= i < |s| ==> s[i] in {9, 10, 11, 12, 13, 32})
    ensures s == [0xC2, 0x85] || s == [0xC2, 0xA0] || s == [0xE1, 0x9A, 0x80] || s == [0xE2, 0x81, 0x9F] || s == [0xE3, 0x80, 0x80] ==> Blank(s)
    ensures |s| == 3 && s[0] == 0xE2 && s[1] == 0x80 ==> (Blank(s) <==> 0x80 <= s[2] <= 0x8A || s[2] in {0xA8, 0xA9, 0xAF})
    decreases |s|
  {
    if s != [] {
      var n := SpaceLength(s);
      BlankExactly(s[1..]);
      assert forall i :: 0 <= i < |s| - 1 ==> s[1..][i] == s[i + 1];
      if n > 0 {
        assert |s| == n ==> s[n..] == [];
        assert Blank([]);
      }
    }
  }

  lemma {:induction false} BlankPrintable(s: Bytes)
    requires forall i :: 0 <= i < |s| ==> Printable(s[i])
    ensures Blank(s) <==> forall i :: 0 <= i < |s| ==> s[i] == 32
    decreases |s|
  {
    if s != [] {
      BlankPrintable(s[1..]);
      assert SpaceLength(s) == if s[0] == 32 then 1 else 0;
      assert forall i :: 0 <= i < |s| - 1 ==> s[1..][i] == s[i + 1];
    }
  }

  // ------------------------------------------------------- the effective identity

  datatype Method = Get | Head | OtherMethod(text: Bytes)

  /** A request as far as its user goes; `authenticated` is whether its caller proved to
      hold the credential. */
  datatype Request = Request(authenticated: bool, verb: Method, path: Bytes, identity: seq<Bytes>)

  predicate SharedPath(r: Request, sharedPaths: seq<Bytes>) { !r.verb.OtherMethod? && r.path in sharedPaths }

  method SharedRequest(r: Request, sharedPaths: seq<Bytes>) returns (shared: bool)
    ensures shared <==> SharedPath(r, sharedPaths)
  {
    if r.verb != Get && r.verb != Head {
      return false;
    }
    for i := 0 to |sharedPaths|
      invariant r.path !in sharedPaths[..i]
    {
      if r.path == sharedPaths[i] {
        return true;
      }
      assert sharedPaths[..i + 1] == sharedPaths[..i] + [sharedPaths[i]];
    }
    assert sharedPaths[..|sharedPaths|] == sharedPaths;
    return false;
  }

  datatype Decision = ServeAs(identity: Bytes) | Refuse(status: int)

  /** Whom a request is served as, or the status it is refused with. */
  function Effective(r: Request, maxLength: int, sharedPaths: seq<Bytes>): Decision {
    if !r.authenticated then Refuse(UNAUTHORIZED)
    else match Judge(r.identity, maxLength)
      case Accepted(raw) => ServeAs(raw)
      case Rejected(reason, status) =>
        if reason == Missing && SharedPath(r, sharedPaths) then ServeAs(SHARED) else Refuse(status)
  }

  method SelectIdentity(r: Request, maxLength: int, sharedPaths: seq<Bytes>) returns (d: Decision)
    ensures d == Effective(r, maxLength, sharedPaths)
  {
    if !r.authenticated {
      return Refuse(UNAUTHORIZED);
    }
    var v := Extract(r.identity, maxLength);
    if v.Accepted? {
      return ServeAs(v.raw);
    }
    if v.reason == Missing {
      var shared := SharedRequest(r, sharedPaths);
      if shared {
        return ServeAs(SHARED);
      }
    }
    return Refuse(v.status);
  }

  /** A request is served as the shared identity if and only if its caller is
      authenticated, it carries no identity header, it only reads, and its path is
      listed as it stands; every other request is served as what its own header says,
      accepted as it stands, or not at all. */
  lemma SharedExactly(r: Request, maxLength: int, sharedPaths: seq<Bytes>)
    ensures Effective(r, maxLength, sharedPaths) == ServeAs(SHARED) <==>
      r.authenticated && r.identity == [] && (r.verb == Get || r.verb == Head) && r.path in sharedPaths
    ensures var d := Effective(r, maxLength, sharedPaths);
      d.ServeAs? && d.identity != SHARED ==>
        r.authenticated && r.identity == [d.identity] && Judge(r.identity, maxLength) == Accepted(d.identity)
  {
    if Judge(r.identity, maxLength).Accepted? {
      AcceptsExactly(r.identity, maxLength, Judge(r.identity, maxLength).raw);
    }
  }

  // --------------------------------------------------------------------- user keys

  function HexDigit(d: int): (b: Byte)
    requires 0 <= d < 16
  {
    if d < 10 then 48 + d else 87 + d
  }

  function HexPair(b: Byte): (h: Bytes)
    ensures |h| == 2
  {
    [HexDigit(b / 16), HexDigit(b % 16)]
  }

  function Hex(s: Bytes): (h: Bytes)
    ensures |h| == 2 * |s|
  {
    if s == [] then [] else HexPair(s[0]) + Hex(s[1..])
  }

  function Preimage(namespace: Bytes, app: Bytes, identity: Bytes): Bytes {
    namespace + [NUL] + app + [NUL] + identity
  }

  /** Two characters and the first half of eight bytes in hex: the digest is a parameter. */
  function UserKey(digest: Bytes -> Bytes, namespace: Bytes, app: Bytes, identity: Bytes): (key: Bytes)
    requires |digest(Preimage(namespace, app, identity))| == 32
    ensures |key| == 18
  {
    [117, DASH] + Hex(digest(Preimage(namespace, app, identity)))[..16]
  }

  function ChildName(app: Bytes, key: Bytes): Bytes { app + [DASH] + key }

  /** The value of a lower-case hexadecimal digit. */
  function HexValue(c: Byte): int {
    if 48 <= c <= 57 then c - 48 else if 97 <= c <= 102 then c - 87 else -1
  }

  /** A key is "u-" and the first eight bytes of the digest, two lower-case hexadecimal
      digits each. */
  lemma UserKeyReads(digest: Bytes -> Bytes, ns: Bytes, app: Bytes, id: Bytes, i: nat)
    requires |digest(Preimage(ns, app, id))| == 32 && i < 8
    ensures var key := UserKey(digest, ns, app, id);
      && key[0] == 117 && key[1] == 45
      && 0 <= HexValue(key[2 + 2 * i]) < 16 && 0 <= HexValue(key[3 + 2 * i]) < 16
      && digest(Preimage(ns, app, id))[i] == 16 * HexValue(key[2 + 2 * i]) + HexValue(key[3 + 2 * i])
  {
    HexAt(digest(Preimage(ns, app, id)), i);
  }

  lemma {:induction false} HexAt(s: Bytes, i: nat)
    requires i < |s|
    ensures Hex(s)[2 * i] == HexDigit(s[i] / 16) && Hex(s)[2 * i + 1] == HexDigit(s[i] % 16)
  {
    if i > 0 {
      HexAt(s[1..], i - 1);
      assert Hex(s)[2 * i] == Hex(s[1..])[2 * (i - 1)];
      assert Hex(s)[2 * i + 1] == Hex(s[1..])[2 * (i - 1) + 1];
    }
  }

  lemma NulSplits(a: Bytes, x: Bytes, b: Bytes, y: Bytes)
    requires NUL !in a && NUL !in b && a + [NUL] + x == b + [NUL] + y
    ensures a == b && x == y
  {
    Ordering.BeforeSeparator(a, NUL, x);
    Ordering.BeforeSeparator(b, NUL, y);
    assert x == (a + [NUL] + x)[|a| + 1..] && y == (b + [NUL] + y)[|b| + 1..];
  }

  /** The separators make the parts of a preimage unambiguous, whatever the identity is,
      as long as namespace and app hold no NUL. */
  lemma PreimageIsInjective(ns: Bytes, app: Bytes, id: Bytes, ns': Bytes, app': Bytes, id': Bytes)
    requires 0 !in ns && 0 !in app && 0 !in ns' && 0 !in app'
    requires Preimage(ns, app, id) == Preimage(ns', app', id')
    ensures ns == ns' && app == app' && id == id'
  {
    assert Preimage(ns, app, id) == ns + [NUL] + (app + [NUL] + id);
    assert Preimage(ns', app', id') == ns' + [NUL] + (app' + [NUL] + id');
    NulSplits(ns, app + [NUL] + id, ns', app' + [NUL] + id');
    NulSplits(app, id, app', id');
  }

  lemma {:induction false} HexIsInjective(s: Bytes, t: Bytes, n: nat)
    requires n <= |s| && n <= |t|
    ensures Hex(s)[..2 * n] == Hex(t)[..2 * n] <==> s[..n] == t[..n]
    decreases n
  {
    hide HexPair;
    if n > 0 {
      HexIsInjective(s[1..], t[1..], n - 1);
      HexBegins(s, n);
      HexBegins(t, n);
      var x, y := HexPair(s[0]), HexPair(t[0]);
      var p, q := Hex(s[1..])[..2 * (n - 1)], Hex(t[1..])[..2 * (n - 1)];
      assert x + p == y + q <==> x == y && p == q by { SameLengthSplits(x, p, y, q); }
      assert x == y <==> s[0] == t[0] by { ByteFromDigits(s[0], t[0]); }
      assert s[..n] == [s[0]] + s[1..][..n - 1] && t[..n] == [t[0]] + t[1..][..n - 1];
      SameLengthSplits([s[0]], s[1..][..n - 1], [t[0]], t[1..][..n - 1]);
    }
  }

  lemma HexBegins(s: Bytes, n: nat)
    requires 0 < n <= |s|
    ensures Hex(s)[..2 * n] == HexPair(s[0]) + Hex(s[1..])[..2 * (n - 1)]
  {
    hide HexPair;
    var first, rest := HexPair(s[0]), Hex(s[1..]);
    assert Hex(s) == first + rest;
    hide Hex;
    TakeBeyond(first, rest, 2 * (n - 1));
  }

  lemma TakeBeyond(a: Bytes, b: Bytes, k: nat)
    requires k <= |b|
    ensures (a + b)[..|a| + k] == a + b[..k]
  {
  }

  lemma SameLengthSplits(x: Bytes, p: Bytes, y: Bytes, q: Bytes)
    requires |x| == |y|
    ensures x + p == y + q <==> x == y && p == q
  {
    if x + p == y + q {
      assert x == (x + p)[..|x|] && y == (y + q)[..|y|];
      assert p == (x + p)[|x|..] && q == (y + q)[|y|..];
    }
  }

  lemma ByteFromDigits(a: Byte, b: Byte)
    ensures HexPair(a) == HexPair(b) <==> a == b
  {
    var x, y := HexPair(a), HexPair(b);
    if x == y {
      assert x[0] == y[0] && x[1] == y[1];
      assert a / 16 == b / 16 && a % 16 == b % 16;
    }
  }

  /** Two keys are equal exactly when the first eight bytes of the digests are. */
  lemma KeysAgreeOnEightBytes(digest: Bytes -> Bytes, ns: Bytes, app: Bytes, id: Bytes, ns': Bytes, app': Bytes, id': Bytes)
    requires |digest(Preimage(ns, app, id))| == 32 && |digest(Preimage(ns', app', id'))| == 32
    ensures UserKey(digest, ns, app, id) == UserKey(digest, ns', app', id')
       <==> digest(Preimage(ns, app, id))[..8] == digest(Preimage(ns', app', id'))[..8]
  {
    var d, d' := digest(Preimage(ns, app, id)), digest(Preimage(ns', app', id'));
    HexIsInjective(d, d', 8);
    SameLengthSplits([117, DASH], Hex(d)[..16], [117, DASH], Hex(d')[..16]);
  }

  /** A child name splits in one way only, whatever dashes the app's name holds. */
  lemma ChildNameSplits(app: Bytes, key: Bytes, app': Bytes, key': Bytes)
    requires |key| == 18 && |key'| == 18 && ChildName(app, key) == ChildName(app', key')
    ensures app == app' && key == key'
  {
    var s := ChildName(app, key);
    assert app == s[..|s| - 19] && app' == s[..|s| - 19];
    assert key == s[|s| - 18..] && key' == s[|s| - 18..];
  }

  /** The digest is of full length, and these two preimages do not collide on the eight
      bytes of it that a key keeps. */
  predicate Apart(digest: Bytes -> Bytes, p: Bytes, q: Bytes) {
    |digest(p)| == 32 && |digest(q)| == 32 && (digest(p)[..8] == digest(q)[..8] ==> p == q)
  }

  /** Two identities, to any routers of one namespace, share a user's resources only when
      both routers are of one app and the identities are one. */
  lemma KeysAreApart(digest: Bytes -> Bytes, ns: Bytes, app: Bytes, app': Bytes, id: Bytes, id': Bytes)
    requires NUL !in ns && NUL !in app && NUL !in app'
    requires Apart(digest, Preimage(ns, app, id), Preimage(ns, app', id'))
    ensures ChildName(app, UserKey(digest, ns, app, id)) == ChildName(app', UserKey(digest, ns, app', id')) <==>
      app == app' && id == id'
  {
    if ChildName(app, UserKey(digest, ns, app, id)) == ChildName(app', UserKey(digest, ns, app', id')) {
      ChildNameSplits(app, UserKey(digest, ns, app, id), app', UserKey(digest, ns, app', id'));
      KeysAgreeOnEightBytes(digest, ns, app, id, ns, app', id');
      PreimageIsInjective(ns, app, id, ns, app', id');
    }
  }

  /** Two served requests reach the same user's resources exactly when they are to one
      app and carry one identity header, or both none: no user reaches another's
      resources, nor the shared ones, under any header they send. */
  lemma UsersAreApart(digest: Bytes -> Bytes, ns: Bytes, app: Bytes, app': Bytes, r: Request, r': Request,
                      maxLength: int, maxLength': int, paths: seq<Bytes>, paths': seq<Bytes>)
    requires NUL !in ns && NUL !in app && NUL !in app'
    requires Effective(r, maxLength, paths).ServeAs? && Effective(r', maxLength', paths').ServeAs?
    requires Apart(digest, Preimage(ns, app, Effective(r, maxLength, paths).identity),
                           Preimage(ns, app', Effective(r', maxLength', paths').identity))
    ensures var id, id' := Effective(r, maxLength, paths).identity, Effective(r', maxLength', paths').identity;
      ChildName(app, UserKey(digest, ns, app, id)) == ChildName(app', UserKey(digest, ns, app', id')) <==>
        app == app' && r.identity == r'.identity
  {
    KeysAreApart(digest, ns, app, app', Effective(r, maxLength, paths).identity, Effective(r', maxLength', paths').identity);
    SharedExactly(r, maxLength, paths);
    SharedExactly(r', maxLength', paths');
  }
}
