/** JSON Pointers (sections 3 and 4 of RFC 6901): decoding is a bijection onto token lists. */
module JsonPointer {
  import opened Basics
  import opened Digits

  /** One reference token from its escaped spelling: `~1` is a slash, `~0` a tilde. */
  function Unescape(part: Bytes): Option<Bytes> {
    if part == "" then Some("")
    else if part[0] != '~' then
      var rest :- Unescape(part[1..]);
      Some([part[0]] + rest)
    else if |part| < 2 || (part[1] != '0' && part[1] != '1') then None
    else
      var rest :- Unescape(part[2..]);
      Some([if part[1] == '0' then '~' else '/'] + rest)
  }

  function Escape(token: Bytes): Bytes {
    if token == "" then ""
    else (if token[0] == '~' then ['~', '0'] else if token[0] == '/' then ['~', '1'] else [token[0]]) + Escape(token[1..])
  }

  function DecodePointer(pointer: Bytes): Option<seq<Bytes>> {
    if pointer == "" then Some([])
    else if pointer[0] != '/' then None
    else
      var parts := Split(pointer[1..], '/');
      if exists i | 0 <= i < |parts| :: Unescape(parts[i]).None? then None
      else Some(seq(|parts|, i requires 0 <= i < |parts| => Unescape(parts[i]).value))
  }

  /** The pointer that spells a token list. */
  function EncodePointer(tokens: seq<Bytes>): Bytes {
    if tokens == [] then ""
    else ['/'] + Join(seq(|tokens|, i requires 0 <= i < |tokens| => Escape(tokens[i])), '/')
  }

  lemma {:induction false} UnescapeOfEscape(token: Bytes)
    ensures Unescape(Escape(token)) == Some(token)
    ensures '/' !in Escape(token)
  {
    if token != "" {
      UnescapeOfEscape(token[1..]);
      var rest := Escape(token[1..]);
      assert [token[0]] + token[1..] == token;
      if token[0] == '~' {
        assert (['~', '0'] + rest)[2..] == rest;
      } else if token[0] == '/' {
        assert (['~', '1'] + rest)[2..] == rest;
      } else {
        assert ([token[0]] + rest)[1..] == rest;
      }
    }
  }

  lemma {:induction false} EscapeOfUnescape(part: Bytes, token: Bytes)
    requires Unescape(part) == Some(token) && '/' !in part
    ensures Escape(token) == part
  {
    if part == "" {
    } else if part[0] != '~' {
      EscapeOfUnescape(part[1..], token[1..]);
      assert part == [part[0]] + part[1..];
    } else {
      EscapeOfUnescape(part[2..], token[1..]);
      assert part == [part[0], part[1]] + part[2..];
    }
  }

  /** Decoding the spelling of a token list gives the list back. */
  lemma DecodeOfEncode(tokens: seq<Bytes>)
    ensures DecodePointer(EncodePointer(tokens)) == Some(tokens)
  {
    if tokens != [] {
      var parts := seq(|tokens|, i requires 0 <= i < |tokens| => Escape(tokens[i]));
      forall i | 0 <= i < |parts| ensures '/' !in parts[i] && Unescape(parts[i]) == Some(tokens[i]) {
        UnescapeOfEscape(tokens[i]);
      }
      SplitOfJoin(parts, '/');
      assert EncodePointer(tokens)[1..] == Join(parts, '/');
      DecodedParts(EncodePointer(tokens), parts, tokens);
    }
  }

  lemma DecodedParts(pointer: Bytes, parts: seq<Bytes>, tokens: seq<Bytes>)
    requires pointer != "" && pointer[0] == '/' && parts == Split(pointer[1..], '/') && |tokens| == |parts|
    requires forall i | 0 <= i < |parts| :: Unescape(parts[i]) == Some(tokens[i])
    ensures DecodePointer(pointer) == Some(tokens)
  {
    assert seq(|parts|, i requires 0 <= i < |parts| => Unescape(parts[i]).value) == tokens;
  }

  /** Each accepted pointer is the spelling of the tokens it decodes to. */
  lemma EncodeOfDecode(pointer: Bytes)
    requires DecodePointer(pointer).Some?
    ensures EncodePointer(DecodePointer(pointer).value) == pointer
  {
    if pointer != "" {
      var parts, tokens := Split(pointer[1..], '/'), DecodePointer(pointer).value;
      forall i | 0 <= i < |parts| ensures Escape(tokens[i]) == parts[i] {
        EscapeOfUnescape(parts[i], tokens[i]);
      }
      assert seq(|tokens|, i requires 0 <= i < |tokens| => Escape(tokens[i])) == parts;
      JoinOfSplit(pointer[1..], '/');
      assert pointer == ['/'] + pointer[1..];
    }
  }

  /** A tilde that is not the start of `~0` or `~1`. */
  predicate StrayTilde(s: Bytes, i: nat) {
    i < |s| && s[i] == '~' && (i + 1 == |s| || (s[i + 1] != '0' && s[i + 1] != '1'))
  }

  ghost predicate HasStrayTilde(s: Bytes) {
    exists i: nat :: StrayTilde(s, i)
  }

  lemma StrayInFront(s: Bytes, front: Bytes, rest: Bytes)
    requires s == front + rest && (front == "" || rest == "" || front[|front| - 1] != '~')
    ensures HasStrayTilde(s) <==> HasStrayTilde(front) || HasStrayTilde(rest)
  {
    forall i: nat | StrayTilde(s, i) ensures HasStrayTilde(front) || HasStrayTilde(rest) {
      assert if i < |front| then StrayTilde(front, i) else StrayTilde(rest, i - |front|);
    }
    forall i: nat | StrayTilde(front, i) ensures HasStrayTilde(s) {
      assert StrayTilde(s, i);
    }
    forall i: nat | StrayTilde(rest, i) ensures HasStrayTilde(s) {
      assert StrayTilde(s, |front| + i);
    }
  }

  lemma {:induction false} RefusedToken(part: Bytes)
    ensures Unescape(part).None? <==> HasStrayTilde(part)
  {
    if part == "" {
    } else if part[0] != '~' {
      RefusedToken(part[1..]);
      StrayInFront(part, [part[0]], part[1..]);
      assert !StrayTilde([part[0]], 0);
    } else if StrayTilde(part, 0) {
    } else {
      RefusedToken(part[2..]);
      var front := part[..2];
      assert front[0] == '~' && front[1] == part[1];
      StrayInFront(part, front, part[2..]);
      assert !StrayTilde(front, 0) && !StrayTilde(front, 1);
    }
  }

  lemma {:induction false} RefusedParts(parts: seq<Bytes>)
    requires parts != []
    ensures HasStrayTilde(Join(parts, '/')) <==> exists i | 0 <= i < |parts| :: HasStrayTilde(parts[i])
  {
    if |parts| > 1 {
      var rest := Join(parts[1..], '/');
      RefusedParts(parts[1..]);
      StrayBeforeSlash(parts[0]);
      StrayInFront(Join(parts, '/'), parts[0] + ['/'], rest);
      assert forall i | 1 <= i < |parts| :: parts[i] == parts[1..][i - 1];
    }
  }

  lemma StrayBeforeSlash(part: Bytes)
    ensures HasStrayTilde(part + ['/']) <==> HasStrayTilde(part)
  {
    var s := part + ['/'];
    forall i: nat | StrayTilde(s, i) ensures HasStrayTilde(part) {
      assert StrayTilde(part, i);
    }
    forall i: nat | StrayTilde(part, i) ensures HasStrayTilde(s) {
      assert StrayTilde(s, i);
    }
  }

  /** A pointer is refused exactly for a missing first slash or a tilde that starts no escape. */
  lemma RefusedPointers(pointer: Bytes)
    ensures DecodePointer(pointer).None? <==> pointer != "" && (pointer[0] != '/' || HasStrayTilde(pointer))
  {
    if pointer != "" && pointer[0] == '/' {
      var parts := Split(pointer[1..], '/');
      forall i | 0 <= i < |parts| ensures Unescape(parts[i]).None? <==> HasStrayTilde(parts[i]) {
        RefusedToken(parts[i]);
      }
      RefusedParts(parts);
      JoinOfSplit(pointer[1..], '/');
      StrayInFront(pointer, ['/'], pointer[1..]);
      assert !StrayTilde(['/'], 0);
    }
  }

  // ----- the decoder

  method DecodeToken(part: Bytes) returns (token: Option<Bytes>)
    ensures token == Unescape(part)
  {
    var decoded := "";
    var offset := 0;
    ContinuedNothing(part);
    while offset < |part|
      invariant 0 <= offset <= |part|
      invariant Unescape(part) == Continued(decoded, Unescape(part[offset..]))
    {
      ghost var rest := part[offset..];
      ContinuedOne(decoded, part[offset], rest[1..]);
      if part[offset] != '~' {
        assert rest[1..] == part[offset + 1..];
        decoded := decoded + [part[offset]];
        offset := offset + 1;
        continue;
      }
      if offset + 1 >= |part| || (part[offset + 1] != '0' && part[offset + 1] != '1') {
        return None;
      }
      assert rest[2..] == part[offset + 2..];
      ContinuedOne(decoded, if part[offset + 1] == '0' then '~' else '/', rest[2..]);
      decoded := decoded + [if part[offset + 1] == '0' then '~' else '/'];
      offset := offset + 2;
    }
    assert part[offset..] == "" && decoded + "" == decoded;
    token := Some(decoded);
  }

  ghost function Continued(decoded: Bytes, rest: Option<Bytes>): Option<Bytes> {
    var r :- rest;
    Some(decoded + r)
  }

  lemma ContinuedNothing(part: Bytes)
    ensures Unescape(part) == Continued("", Unescape(part[0..]))
  {
    assert part[0..] == part;
    if Unescape(part).Some? {
      assert "" + Unescape(part).value == Unescape(part).value;
    }
  }

  lemma ContinuedOne(decoded: Bytes, c: char, rest: Bytes)
    ensures Continued(decoded, Continued([c], Unescape(rest))) == Continued(decoded + [c], Unescape(rest))
  {
    if Unescape(rest).Some? {
      assert decoded + ([c] + Unescape(rest).value) == decoded + [c] + Unescape(rest).value;
    }
  }

  /** Splits at slashes, then overwrites each part with its token. */
  method JsonPointerTokens(pointer: Bytes) returns (tokens: Option<seq<Bytes>>)
    ensures tokens == DecodePointer(pointer)
  {
    if pointer == "" {
      return Some([]);
    }
    if pointer[0] != '/' {
      return None;
    }
    var parts := Split(pointer[1..], '/');
    ghost var spelled := parts;
    for index := 0 to |parts|
      invariant |parts| == |spelled|
      invariant forall i | 0 <= i < index :: Unescape(spelled[i]) == Some(parts[i])
      invariant forall i | index <= i < |parts| :: parts[i] == spelled[i]
    {
      var decoded := DecodeToken(parts[index]);
      if decoded.None? {
        return None;
      }
      parts := parts[index := decoded.value];
    }
    DecodedParts(pointer, spelled, parts);
    tokens := Some(parts);
  }
}
