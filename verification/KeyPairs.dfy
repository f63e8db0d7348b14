/** The key pairs of ipmi-config's command line: `section:key=value` is cut up
    in place by chained `strtok_r` calls, and the result is appended to a linked
    list that rejects duplicates. */
module KeyPairs {
  import opened Common

  const NUL: char := '\0'

  // ----- strtok_r on strings -----

  /** The leading characters of `s` that are, or are not, delimiters. */
  function Leading(s: string, delims: string, inside: bool): (n: nat)
    ensures n <= |s|
    ensures forall i :: 0 <= i < n ==> (s[i] in delims) == inside
    ensures n < |s| ==> (s[n] in delims) != inside
  {
    if s == [] || (s[0] in delims) != inside then 0 else 1 + Leading(s[1..], delims, inside)
  }

  lemma {:induction false} LeadingIs(s: string, delims: string, inside: bool, n: nat)
    requires n <= |s| && (forall i :: 0 <= i < n ==> (s[i] in delims) == inside)
    requires n < |s| ==> (s[n] in delims) != inside
    ensures Leading(s, delims, inside) == n
  {
    if n != 0 {
      LeadingIs(s[1..], delims, inside, n - 1);
    }
  }

  datatype Cut = Cut(token: Option<string>, rest: string)

  /** `strtok_r`: skip delimiters, take what is not one, drop one delimiter. */
  function Tok(s: string, delims: string): Cut {
    var t := s[Leading(s, delims, true)..];
    var n := Leading(t, delims, false);
    if t == [] then Cut(None, [])
    else Cut(Some(t[..n]), if n < |t| then t[n + 1..] else [])
  }

  const BLANKS: string := " \t"

  function Trimmed(s: string): Option<string> {
    Tok(s, BLANKS).token
  }

  /** `Parsed` with a section or key of `None` is a return value of 0 with a null
      pointer left in the out-parameter. */
  datatype Result = Improper | Parsed(section: Option<string>, key: Option<string>, value: string)

  /** What `_ipmi_config_keypair_parse_string` makes of a string. */
  function Parse(s: string): Result {
    var section := Tok(s, ":");
    var key := Tok(section.rest, "=");
    var value := Tok(key.rest, "");
    if section.token.None? || key.token.None? then Improper
    else
      Parsed(Trimmed(section.token.value), Trimmed(key.token.value),
             if value.token.None? || Trimmed(value.token.value).None? then "" else Trimmed(value.token.value).value)
  }

  // ----- strtok_r in place -----

  /** `r` is the C string at index `i` of the buffer. */
  predicate Holds(s: seq<char>, i: nat, r: string) {
    && i + |r| < |s| && s[i + |r|] == NUL
    && forall j :: i <= j < i + |r| ==> s[j] != NUL && s[j] == r[j - i]
  }

  lemma HoldsSuffix(s: seq<char>, i: nat, r: string, n: nat)
    requires Holds(s, i, r) && n <= |r|
    ensures Holds(s, i + n, r[n..])
  {
  }

  lemma HoldsOne(s: seq<char>, i: nat, r: string, q: string)
    requires Holds(s, i, r) && Holds(s, i, q)
    ensures r == q
  {
    assert |r| == |q|;
    forall k | 0 <= k < |r|
      ensures r[k] == q[k]
    {
      assert s[i + k] == r[i + k - i];
    }
  }

  /** `strdup` of the C string at `i`. */
  method Duplicate(buf: array<char>, i: nat, ghost s: string) returns (r: string)
    requires Holds(buf[..], i, s)
    ensures r == s
  {
    var j := i;
    while buf[j] != NUL
      invariant i <= j <= i + |s|
      invariant forall k :: i <= k < j ==> buf[..][k] != NUL
      decreases i + |s| - j
    {
      assert s[j - i] == buf[..][j];
      j := j + 1;
    }
    r := buf[i..j];
    assert Holds(buf[..], i, r);
    HoldsOne(buf[..], i, r, s);
  }

  /** The first index at or after `start` that ends a stretch of delimiters, or
      of other characters. */
  method Scan(buf: array<char>, start: nat, delims: string, inside: bool, ghost s: string) returns (i: nat)
    requires Holds(buf[..], start, s)
    ensures i == start + Leading(s, delims, inside)
  {
    i := start;
    while buf[i] != NUL && (buf[i] in delims) == inside
      invariant start <= i <= start + |s|
      invariant forall k :: 0 <= k < i - start ==> (s[k] in delims) == inside
      decreases start + |s| - i
    {
      assert s[i - start] == buf[..][i];
      i := i + 1;
    }
    assert i < start + |s| ==> s[i - start] == buf[..][i];
    LeadingIs(s, delims, inside, i - start);
  }

  /** What a call on a string of length `len` leaves behind, given the buffer
      before and after it: token and rest are in place, and nothing outside
      [start, save) was written. */
  predicate CutInPlace(was: seq<char>, now: seq<char>, start: nat, len: nat, cut: Cut, tok: Option<nat>, save: nat) {
    && |was| == |now| && start <= save <= start + len && Holds(now, save, cut.rest)
    && (tok.Some? <==> cut.token.Some?)
    && (tok.Some? ==>
          && start <= tok.value && tok.value + |cut.token.value| <= save
          && Holds(now, tok.value, cut.token.value))
    && (forall k :: 0 <= k < |now| && !(start <= k < save) ==> now[k] == was[k])
  }

  /** A token of length `n` after `skip` characters is cut off in place. */
  lemma CutToken(was: seq<char>, start: nat, s: string, skip: nat, n: nat)
    requires Holds(was, start, s) && skip + n < |s|
    ensures CutInPlace(was, was[start + skip + n := NUL], start, |s|, Cut(Some(s[skip..skip + n]), s[skip + n + 1..]),
                       Some(start + skip), start + skip + n + 1)
  {
    var now := was[start + skip + n := NUL];
    HoldsSuffix(was, start, s, skip + n + 1);
    assert Holds(now, start + skip, s[skip..skip + n]);
    assert Holds(now, start + skip + n + 1, s[skip + n + 1..]);
  }

  lemma TokIs(s: string, delims: string, skip: nat, n: nat)
    requires skip == Leading(s, delims, true) && n == Leading(s[skip..], delims, false)
    ensures Tok(s, delims) == if skip == |s| then Cut(None, [])
                              else Cut(Some(s[skip..skip + n]), if skip + n < |s| then s[skip + n + 1..] else [])
  {
    var t := s[skip..];
    assert t[..n] == s[skip..skip + n];
    if n < |t| {
      assert t[n + 1..] == s[skip + n + 1..];
    }
  }

  /** `strtok_r` on the C string `s` at `start`; `save` is where the next call
      goes on. */
  method StrtokR(buf: array<char>, start: nat, delims: string, ghost s: string) returns (tok: Option<nat>, save: nat)
    requires Holds(buf[..], start, s)
    modifies buf
    ensures CutInPlace(old(buf[..]), buf[..], start, |s|, Tok(s, delims), tok, save)
  {
    ghost var was := buf[..];
    var begin := Scan(buf, start, delims, true, s);
    ghost var skip := begin - start;
    HoldsSuffix(was, start, s, skip);
    ghost var n := Leading(s[skip..], delims, false);
    TokIs(s, delims, skip, n);
    if buf[begin] == NUL {
      HoldsOne(was, begin, s[skip..], []);
      return None, begin;
    }
    var end := Scan(buf, begin, delims, false, s[skip..]);
    HoldsSuffix(was, start, s, skip + n);
    if buf[end] == NUL {
      HoldsOne(was, end, s[skip + n..], []);
      assert s[skip..skip + n] == s[skip..];
      return Some(begin), end;
    }
    CutToken(was, start, s, skip, n);
    buf[end] := NUL;
    assert buf[..] == was[end := NUL];
    return Some(begin), end + 1;
  }

  /** A string elsewhere in the buffer survives a call. */
  lemma Untouched(was: seq<char>, now: seq<char>, start: nat, len: nat, cut: Cut, tok: Option<nat>, save: nat,
                  i: nat, r: string)
    requires CutInPlace(was, now, start, len, cut, tok, save) && Holds(was, i, r)
    requires i + |r| < start || save <= i || save == start
    ensures Holds(now, i, r)
  {
  }

  /** Takes the blanks off the token at `i`, in place.  Strings before it, and
      those behind it, stay. */
  method Trim(buf: array<char>, i: nat, ghost s: string) returns (t: Option<string>)
    requires Holds(buf[..], i, s)
    modifies buf
    ensures t == Trimmed(s)
    ensures forall j: nat, r :: Holds(old(buf[..]), j, r) && (j + |r| < i || i + |s| <= j) ==> Holds(buf[..], j, r)
  {
    ghost var was := buf[..];
    var tok, save := StrtokR(buf, i, BLANKS, s);
    forall j: nat, r | Holds(was, j, r) && (j + |r| < i || i + |s| <= j)
      ensures Holds(buf[..], j, r)
    {
      Untouched(was, buf[..], i, |s|, Tok(s, BLANKS), tok, save, j, r);
    }
    t := None;
    if tok.Some? {
      var copy := Duplicate(buf, tok.value, Trimmed(s).value);
      t := Some(copy);
    }
  }

  /** The token, if there is one, lies in the buffer between two indices. */
  predicate Lies(now: seq<char>, tok: Option<nat>, token: Option<string>, lo: nat, hi: nat) {
    && (tok.Some? <==> token.Some?)
    && (tok.Some? ==> lo <= tok.value && tok.value + |token.value| <= hi && Holds(now, tok.value, token.value))
  }

  lemma StillLies(was: seq<char>, now: seq<char>, start: nat, len: nat, cut: Cut, tok: Option<nat>, save: nat,
                  earlier: Option<nat>, token: Option<string>, lo: nat)
    requires CutInPlace(was, now, start, len, cut, tok, save) && Lies(was, earlier, token, lo, start)
    requires earlier.Some? ==> earlier.value + |token.value| < start || save == start
    ensures Lies(now, earlier, token, lo, start)
  {
    if earlier.Some? {
      Untouched(was, now, start, len, cut, tok, save, earlier.value, token.value);
    }
  }

  /** A token that ends where the string ends leaves nothing to cut. */
  lemma NothingLeft(now: seq<char>, tok: Option<nat>, token: Option<string>, lo: nat, save: nat, rest: string)
    requires Lies(now, tok, token, lo, save) && Holds(now, save, rest) && tok.Some?
    ensures tok.value + |token.value| < save || rest == []
  {
    if tok.value + |token.value| == save {
      HoldsOne(now, save, rest, []);
    }
  }

  /** The three cuts: section, key and value lie in the buffer in this order. */
  method CutThree(buf: array<char>, s: string, ghost a: Cut, ghost b: Cut, ghost c: Cut)
    returns (section: Option<nat>, key: Option<nat>, value: Option<nat>, ghost save1: nat, ghost save2: nat)
    requires Holds(buf[..], 0, s)
    requires a == Tok(s, ":") && b == Tok(a.rest, "=") && c == Tok(b.rest, "")
    modifies buf
    ensures Lies(buf[..], section, a.token, 0, save1)
    ensures Lies(buf[..], key, b.token, save1, save2)
    ensures Lies(buf[..], value, c.token, save2, buf.Length)
  {
    var save;
    section, save := StrtokR(buf, 0, ":", s);
    save1 := save;
    ghost var was := buf[..];
    if section.Some? { NothingLeft(was, section, a.token, 0, save1, a.rest); }
    key, save := StrtokR(buf, save, "=", a.rest);
    save2 := save;
    StillLies(was, buf[..], save1, |a.rest|, b, key, save2, section, a.token, 0);
    was := buf[..];
    if key.Some? { NothingLeft(was, key, b.token, save1, save2, b.rest); }
    ghost var len := |b.rest|;
    value, save := StrtokR(buf, save, "", b.rest);
    if section.Some? {
      Untouched(was, buf[..], save2, len, c, value, save, section.value, a.token.value);
    }
    StillLies(was, buf[..], save2, len, c, value, save, key, b.token, save1);
  }

  /** Takes the blanks off the three tokens. */
  method TrimThree(buf: array<char>, section: nat, key: nat, value: Option<nat>,
                   ghost a: string, ghost b: string, ghost c: Option<string>, ghost save1: nat, ghost save2: nat)
    returns (r: Result)
    requires Lies(buf[..], Some(section), Some(a), 0, save1)
    requires Lies(buf[..], Some(key), Some(b), save1, save2)
    requires Lies(buf[..], value, c, save2, buf.Length)
    modifies buf
    ensures r == Parsed(Trimmed(a), Trimmed(b),
                        if c.None? || Trimmed(c.value).None? then "" else Trimmed(c.value).value)
  {
    var sectionName := Trim(buf, section, a);
    var keyName := Trim(buf, key, b);
    var text := None;
    if value.Some? {
      text := Trim(buf, value.value, c.value);
    }
    r := Parsed(sectionName, keyName, if text.Some? then text.value else "");
  }

  lemma ParseIs(s: string, a: Cut, b: Cut, c: Cut)
    requires a == Tok(s, ":") && b == Tok(a.rest, "=") && c == Tok(b.rest, "")
    ensures Parse(s) ==
            if a.token.None? || b.token.None? then Improper
            else Parsed(Trimmed(a.token.value), Trimmed(b.token.value),
                        if c.token.None? || Trimmed(c.token.value).None? then "" else Trimmed(c.token.value).value)
  {
  }

  /** `_ipmi_config_keypair_parse_string` on a copy of its argument */
  method ParseString(s: string) returns (r: Result)
    requires NUL !in s
    ensures r == Parse(s)
  {
    var buf := CopyOf(s);
    ghost var a := Tok(s, ":");
    ghost var b := Tok(a.rest, "=");
    ghost var c := Tok(b.rest, "");
    ghost var save1, save2;
    var section, key, value;
    section, key, value, save1, save2 := CutThree(buf, s, a, b, c);
    ParseIs(s, a, b, c);
    if section.None? || key.None? {
      return Improper;
    }
    r := TrimThree(buf, section.value, key.value, value, a.token.value, b.token.value, c.token, save1, save2);
  }

  /** `strdup` of the argument */
  method CopyOf(s: string) returns (buf: array<char>)
    requires NUL !in s
    ensures fresh(buf) && Holds(buf[..], 0, s)
  {
    buf := new char[|s| + 1](i requires 0 <= i <= |s| => if i < |s| then s[i] else NUL);
    assert forall j :: 0 <= j < |s| ==> s[j] in s;
  }

  // ----- What the parser recovers -----

  predicate Blank(s: string) {
    forall c :: c in s ==> c == ' ' || c == '\t'
  }

  predicate AllAre(s: string, d: char) {
    forall c :: c in s ==> c == d
  }

  predicate BlankFree(s: string) {
    forall c :: c in s ==> c != ' ' && c != '\t'
  }

  /** The first token of blanks, a word, and anything that starts with a blank. */
  lemma TrimmedWord(before: string, word: string, after: string)
    requires Blank(before) && BlankFree(word) && word != [] && (after != [] ==> after[0] in BLANKS)
    ensures Trimmed(before + word + after) == Some(word)
  {
    var s := before + word + after;
    assert forall i :: 0 <= i < |before| ==> before[i] in before;
    assert forall i :: 0 <= i < |word| ==> word[i] in word;
    LeadingIs(s, BLANKS, true, |before|);
    assert s[|before|..] == word + after;
    LeadingIs(word + after, BLANKS, false, |word|);
    TokIs(s, BLANKS, |before|, |word|);
  }

  lemma TrimmedBlank(s: string)
    ensures Trimmed(s).None? <==> Blank(s)
  {
    var n := Leading(s, BLANKS, true);
    if n == |s| {
      assert forall i :: 0 <= i < |s| ==> s[i] in BLANKS;
    } else {
      assert s[n] in s;
    }
  }

  lemma TrimmedSelf(s: string)
    ensures s != [] ==> (Trimmed(s) == Some(s) <==> BlankFree(s))
  {
    if s != [] {
      if BlankFree(s) {
        TrimmedWord([], s, []);
        assert [] + s + [] == s;
      } else {
        TrimmedIsBlankFree(s);
      }
    }
  }

  lemma TrimmedIsBlankFree(s: string)
    ensures Trimmed(s).Some? ==> BlankFree(Trimmed(s).value)
  {
    var skip := Leading(s, BLANKS, true);
    var n := Leading(s[skip..], BLANKS, false);
    TokIs(s, BLANKS, skip, n);
  }

  /** Delimiters in front are skipped, and what follows the token loses one. */
  lemma TokAt(skip: string, head: string, d: char, tail: string)
    requires AllAre(skip, d) && head != [] && d !in head && (tail != [] ==> tail[0] == d)
    ensures Tok(skip + head + tail, [d]) == Cut(Some(head), if tail == [] then [] else tail[1..])
  {
    var s := skip + head + tail;
    assert forall i :: 0 <= i < |skip| ==> s[i] in skip;
    LeadingIs(s, [d], true, |skip|);
    assert s[|skip|..] == head + tail;
    LeadingIs(head + tail, [d], false, |head|);
    TokIs(s, [d], |skip|, |head|);
    assert s[|skip|..|skip| + |head|] == head;
  }

  lemma TokRest(s: string)
    ensures Tok(s, "") == if s == [] then Cut(None, []) else Cut(Some(s), [])
  {
    LeadingIs(s, "", true, 0);
    assert s[0..] == s;
    LeadingIs(s, "", false, |s|);
    TokIs(s, "", 0, |s|);
    assert s[0..0 + |s|] == s;
  }

  /** What parsing does to any string that has a section and a key: colons before
      the section and equals signs before the key are skipped, and without an
      equals sign behind the key the value is empty. */
  lemma ParsesAny(colons: string, section: string, equals: string, key: string, tail: string)
    requires AllAre(colons, ':') && section != [] && ':' !in section
    requires AllAre(equals, '=') && key != [] && '=' !in key && (tail != [] ==> tail[0] == '=')
    ensures Parse(colons + section + ":" + (equals + key + tail)) ==
            Parsed(Trimmed(section), Trimmed(key),
                   if tail == [] || Trimmed(tail[1..]).None? then "" else Trimmed(tail[1..]).value)
  {
    var s := colons + section + ":" + (equals + key + tail);
    var r := equals + key + tail;
    assert s == colons + section + ([':'] + r);
    TokAt(colons, section, ':', [':'] + r);
    assert ([':'] + r)[1..] == r;
    TokAt(equals, key, '=', tail);
    var value := if tail == [] then [] else tail[1..];
    TokRest(value);
    TrimmedBlank([]);
    ParseIs(s, Tok(s, ":"), Tok(r, "="), Tok(value, ""));
  }

  /** What parsing does to the three parts, as long as section and key are not
      empty, the section is free of ':' and the key of '='.  The key may contain
      ':', the section '=', and the value both. */
  lemma ParsesParts(section: string, key: string, value: string)
    requires section != [] && ':' !in section && key != [] && '=' !in key
    ensures Parse(section + ":" + key + "=" + value) ==
            Parsed(Trimmed(section), Trimmed(key),
                   if value == [] || Trimmed(value).None? then "" else Trimmed(value).value)
  {
    hide Parse;
    hide Trimmed;
    ParsesAny([], section, [], key, "=" + value);
    TrimmedBlank(value);
    assert [] + section + ":" + ([] + key + ("=" + value)) == section + ":" + key + "=" + value;
    assert ("=" + value)[1..] == value;
  }

  /** The string has a section, a colon behind it, and a key behind that. */
  predicate HasParts(s: string) {
    exists i, j, k :: 0 <= i < j < k < |s| && s[i] != ':' && s[j] == ':' && s[k] != '='
  }

  lemma LeadingAtMost(s: string, delims: string, inside: bool, k: nat)
    requires k < |s| && (s[k] in delims) != inside
    ensures Leading(s, delims, inside) <= k
  {
  }

  /** Where a token is found, and what is left behind it. */
  lemma TokPlace(s: string, d: char) returns (i: nat, m: nat)
    requires Tok(s, [d]).token.Some?
    ensures i < m <= |s| && s[i] != d && (m < |s| ==> s[m] == d)
    ensures Tok(s, [d]).rest == if m < |s| then s[m + 1..] else []
    ensures forall k :: 0 <= k < |s| && s[k] != d ==> i <= k
    ensures forall k :: i < k < |s| && s[k] == d ==> m <= k
  {
    i := Leading(s, [d], true);
    var n := Leading(s[i..], [d], false);
    TokIs(s, [d], i, n);
    m := i + n;
    forall k | 0 <= k < |s| && s[k] != d
      ensures i <= k
    {
      LeadingAtMost(s, [d], true, k);
    }
    forall k | i < k < |s| && s[k] == d
      ensures m <= k
    {
      LeadingAtMost(s[i..], [d], false, k - i);
    }
  }

  lemma TokThere(s: string, d: char)
    ensures Tok(s, [d]).token.None? <==> AllAre(s, d)
  {
    var i := Leading(s, [d], true);
    TokIs(s, [d], i, Leading(s[i..], [d], false));
    if i < |s| {
      assert s[i] in s;
    } else {
      assert forall k :: 0 <= k < |s| ==> s[k] == d;
    }
  }

  lemma PartsAreProper(s: string, i: nat, j: nat, k: nat)
    requires i < j < k < |s| && s[i] != ':' && s[j] == ':' && s[k] != '='
    ensures Parse(s).Parsed?
  {
    hide Tok;
    hide Trimmed;
    assert s[i] in s;
    TokThere(s, ':');
    var at, m := TokPlace(s, ':');
    var rest := s[m + 1..];
    assert rest[k - m - 1] == s[k] && rest[k - m - 1] in rest;
    TokThere(rest, '=');
  }

  lemma ProperHasParts(s: string)
    requires Parse(s).Parsed?
    ensures HasParts(s)
  {
    hide Tok;
    hide Trimmed;
    var i, m := TokPlace(s, ':');
    var rest := Tok(s, ":").rest;
    TokThere(rest, '=');
    var k :| 0 <= k < |rest| && rest[k] != '=';
    assert s[i] != ':' && s[m] == ':' && s[m + 1 + k] == rest[k] != '=';
  }

  /** The error message appears for no other strings than those without such parts. */
  lemma ImproperExactly(s: string)
    ensures Parse(s).Improper? <==> !HasParts(s)
  {
    if HasParts(s) {
      var i, j, k :| 0 <= i < j < k < |s| && s[i] != ':' && s[j] == ':' && s[k] != '=';
      PartsAreProper(s, i, j, k);
    } else if Parse(s).Parsed? {
      ProperHasParts(s);
    }
  }

  /** Blanks around the three parts are dropped; free of blanks inside, the parts
      come back as they are, an empty value included. */
  lemma ParseRecovers(b1: string, section: string, b2: string, b3: string, key: string, b4: string,
                      b5: string, value: string, b6: string)
    requires Blank(b1) && Blank(b2) && Blank(b3) && Blank(b4) && Blank(b5) && Blank(b6)
    requires section != [] && ':' !in section && BlankFree(section)
    requires key != [] && '=' !in key && BlankFree(key) && BlankFree(value)
    ensures Parse((b1 + section + b2) + ":" + (b3 + key + b4) + "=" + (b5 + value + b6))
         == Parsed(Some(section), Some(key), value)
  {
    hide Parse;
    hide Trimmed;
    assert ':' !in b1 && ':' !in b2 && '=' !in b3 && '=' !in b4;
    assert b2 != [] ==> b2[0] in b2;
    assert b4 != [] ==> b4[0] in b4;
    assert b6 != [] ==> b6[0] in b6;
    ParsesParts(b1 + section + b2, b3 + key + b4, b5 + value + b6);
    TrimmedWord(b1, section, b2);
    TrimmedWord(b3, key, b4);
    if value == [] {
      TrimmedBlank(b5 + value + b6);
    } else {
      TrimmedWord(b5, value, b6);
    }
  }

  /** A value comes back unchanged exactly if it has no blank. */
  lemma ValueRecoveredExactly(section: string, key: string, value: string)
    requires section != [] && ':' !in section && BlankFree(section)
    requires key != [] && '=' !in key && BlankFree(key)
    ensures Parse(section + ":" + key + "=" + value) == Parsed(Some(section), Some(key), value) <==> BlankFree(value)
  {
    ParsesParts(section, key, value);
    TrimmedSelf(section);
    TrimmedSelf(key);
    TrimmedSelf(value);
    if value != [] {
      TrimmedBlank(value);
      if Blank(value) {
        assert value[0] in value;
      }
    }
  }

  /** The parser can succeed with no section or key at all: exactly if that part
      consists of blanks only. */
  lemma NullPartsExactly(section: string, key: string, value: string)
    requires section != [] && ':' !in section && key != [] && '=' !in key
    ensures var r := Parse(section + ":" + key + "=" + value);
            r.Parsed? && (r.section.None? <==> Blank(section)) && (r.key.None? <==> Blank(key))
  {
    ParsesParts(section, key, value);
    TrimmedBlank(section);
    TrimmedBlank(key);
  }

  // ----- The list -----

  function LowerChar(c: char): char {
    if 'A' <= c <= 'Z' then (c as int + 32) as char else c
  }

  function Lower(s: string): string {
    if s == [] then [] else [LowerChar(s[0])] + Lower(s[1..])
  }

  /** The same letter, be it a capital one or not, or the same other character. */
  predicate SameLetter(c: char, d: char) {
    || c == d
    || ('A' <= c <= 'Z' && d as int - c as int == 'a' as int - 'A' as int)
    || ('A' <= d <= 'Z' && c as int - d as int == 'a' as int - 'A' as int)
  }

  predicate SameButCase(a: string, b: string) {
    |a| == |b| && forall i :: 0 <= i < |a| ==> SameLetter(a[i], b[i])
  }

  lemma {:induction false} LowerSame(a: string, b: string)
    ensures Lower(a) == Lower(b) <==> SameButCase(a, b)
  {
    if a != [] && b != [] {
      LowerSame(a[1..], b[1..]);
      assert Lower(a) == Lower(b) <==> LowerChar(a[0]) == LowerChar(b[0]) && Lower(a[1..]) == Lower(b[1..]) by {
        assert Lower(a)[0] == LowerChar(a[0]) && Lower(a)[1..] == Lower(a[1..]);
        assert Lower(b)[0] == LowerChar(b[0]) && Lower(b)[1..] == Lower(b[1..]);
      }
      assert a == [a[0]] + a[1..] && b == [b[0]] + b[1..];
    }
  }

  /** `struct ipmi_config_keypair` */
  class Keypair {
    const section: string
    const key: string
    const value: string
    var next: Keypair?

    constructor (section: string, key: string, value: string)
      ensures this.section == section && this.key == key && this.value == value && next == null
    {
      this.section, this.key, this.value, next := section, key, value, null;
    }

    /** `strcasecmp` of section and key */
    predicate Named(section: string, key: string) {
      Lower(this.section) == Lower(section) && Lower(this.key) == Lower(key)
    }

    predicate SameName(other: Keypair) {
      Named(other.section, other.key)
    }

    predicate Is(p: Result) {
      p == Parsed(Some(section), Some(key), value)
    }
  }

  lemma NamedExactly(kp: Keypair, section: string, key: string)
    ensures kp.Named(section, key) <==> SameButCase(kp.section, section) && SameButCase(kp.key, key)
  {
    LowerSame(kp.section, section);
    LowerSame(kp.key, key);
  }

  ghost function At(nodes: seq<Keypair>, i: nat): Keypair? {
    if i < |nodes| then nodes[i] else null
  }

  /** `args->keypairs`; `nodes` lists the pairs in the order of the links. */
  class Keypairs {
    var head: Keypair?
    ghost var nodes: seq<Keypair>

    ghost predicate Valid()
      reads this, nodes
    {
      && head == At(nodes, 0)
      && (forall i :: 0 <= i < |nodes| ==> nodes[i].next == At(nodes, i + 1))
      && (forall i, j :: 0 <= i < j < |nodes| ==> nodes[i] != nodes[j])
    }

    /** No two pairs name the same section and key, letter case aside. */
    ghost predicate Unique()
      reads this
    {
      forall i, j :: 0 <= i < j < |nodes| ==> !nodes[i].SameName(nodes[j])
    }

    constructor ()
      ensures Valid() && Unique() && nodes == []
    {
      head, nodes := null, [];
    }

    /** The first walk: is there a pair of the same name? */
    method Taken(kp: Keypair) returns (taken: bool)
      requires Valid()
      ensures taken <==> exists i :: 0 <= i < |nodes| && nodes[i].SameName(kp)
    {
      var at := head;
      ghost var i := 0;
      while at != null
        invariant 0 <= i <= |nodes| && at == At(nodes, i)
        invariant forall k :: 0 <= k < i ==> !nodes[k].SameName(kp)
        decreases |nodes| - i
      {
        if at.SameName(kp) {
          return true;
        }
        at, i := at.next, i + 1;
      }
      taken := false;
    }

    /** The second walk: the last pair. */
    method Last() returns (tail: Keypair)
      requires Valid() && nodes != []
      ensures tail == nodes[|nodes| - 1]
    {
      tail := head;
      ghost var i := 0;
      while tail.next != null
        invariant 0 <= i < |nodes| && tail == nodes[i]
        decreases |nodes| - i
      {
        tail, i := tail.next, i + 1;
      }
    }

    /** `_ipmi_config_keypair_append` */
    method Append(kp: Keypair) returns (ok: bool)
      requires Valid() && Unique() && kp !in nodes && kp.next == null
      modifies this, nodes
      ensures Valid() && Unique()
      ensures ok <==> forall i :: 0 <= i < |old(nodes)| ==> !old(nodes)[i].SameName(kp)
      ensures ok ==> nodes == old(nodes) + [kp]
      ensures !ok ==> unchanged(this) && unchanged(old(nodes))
    {
      if head == null {
        head, nodes := kp, [kp];
      } else {
        var taken := Taken(kp);
        if taken {
          return false;
        }
        var tail := Last();
        tail.next := kp;
        nodes := nodes + [kp];
      }
      ok := true;
    }
  }

  /** How one use of the option ends: with a new pair, with an error message, or
      in the assertion of `_ipmi_config_keypair_create` about its arguments. */
  datatype Ending = Added | Rejected | Aborted

  /** One use of the option `--key-pair`: parse, create, append. */
  method Take(list: Keypairs, arg: string) returns (end: Ending, ghost p: Result, ghost added: Keypair?)
    requires list.Valid() && list.Unique() && NUL !in arg
    modifies list, list.nodes
    ensures list.Valid() && list.Unique() && p == Parse(arg)
    ensures end.Added? ==>
              && added != null && fresh(added) && added.Is(p)
              && list.nodes == old(list.nodes) + [added]
    ensures !end.Added? ==> list.nodes == old(list.nodes)
    // A part that is there but blank trips the assertion; otherwise the pair is
    // added exactly if both parts are there and no pair has that name.
    ensures end.Aborted? <==> p.Parsed? && (p.section.None? || p.key.None?)
    ensures end.Added? <==>
              && p.Parsed? && p.section.Some? && p.key.Some?
              && forall k :: k in old(list.nodes) ==> !k.Named(p.section.value, p.key.value)
  {
    var r := ParseString(arg);
    p, added := r, null;
    if r.Improper? {
      return Rejected, p, added;
    }
    if r.section.None? || r.key.None? {
      return Aborted, p, added;
    }
    var kp := new Keypair(r.section.value, r.key.value, r.value);
    added := kp;
    var ok := list.Append(kp);
    if !ok {
      ghost var i :| 0 <= i < |list.nodes| && list.nodes[i].SameName(kp);
      assert list.nodes[i] in list.nodes && list.nodes[i].Named(r.section.value, r.key.value);
    }
    end := if ok then Added else Rejected;
  }

  /** Any number of appends, up to the first duplicate, which ends the program:
      the list holds the pairs in the order given, with no name twice. */
  method AppendAll(list: Keypairs, pairs: seq<Keypair>) returns (count: nat)
    requires list.Valid() && list.Unique()
    requires forall i :: 0 <= i < |pairs| ==> pairs[i] !in list.nodes && pairs[i].next == null
    requires forall i, j :: 0 <= i < j < |pairs| ==> pairs[i] != pairs[j]
    modifies list, list.nodes, pairs
    ensures list.Valid() && list.Unique() && count <= |pairs|
    ensures list.nodes == old(list.nodes) + pairs[..count]
    ensures count < |pairs| ==> exists k :: k in list.nodes && k.SameName(pairs[count])
  {
    count := 0;
    while count < |pairs|
      invariant list.Valid() && list.Unique() && count <= |pairs|
      invariant list.nodes == old(list.nodes) + pairs[..count]
      invariant forall i :: count <= i < |pairs| ==> pairs[i] !in list.nodes && pairs[i].next == null
    {
      var ok := list.Append(pairs[count]);
      if !ok {
        ghost var i :| 0 <= i < |list.nodes| && list.nodes[i].SameName(pairs[count]);
        assert list.nodes[i] in list.nodes;
        return;
      }
      count := count + 1;
    }
  }
}
