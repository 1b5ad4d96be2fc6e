/** The heartbeat keys of quic/server/server.go: "uid|sid|connID", the connection id as 16
    hexadecimal digits, and the parser that a timeout goes through. */
module HeartbeatKey {
  import opened Options

  const UINT64_LIMIT: nat := 0x1_0000_0000_0000_0000

  /** Go's uintptr on the 64-bit platforms the server runs on. */
  type ConnID = x: nat | x < UINT64_LIMIT

  /** What the parser makes of a key; connID 0 stands for "names no connection". */
  datatype ParsedKey = Malformed | Parsed(uid: string, sid: string, connID: ConnID)

  // ---------- strings.SplitN ----------

  function IndexOf(s: string, c: char): (i: nat)
    ensures i <= |s| && c !in s[..i]
    ensures if c in s then i < |s| && s[i] == c else i == |s|
  {
    if s == "" || s[0] == c then 0 else 1 + IndexOf(s[1..], c)
  }

  /** At most n parts; the last one keeps the separators that remain. */
  function SplitN(s: string, c: char, n: nat): (parts: seq<string>)
    requires n > 0
    ensures 1 <= |parts| <= n
    decreases n
  {
    var i := IndexOf(s, c);
    if n == 1 || i == |s| then [s] else [s[..i]] + SplitN(s[i + 1..], c, n - 1)
  }

  lemma IndexOfIsFirst(s: string, c: char, i: nat)
    requires i < |s| && s[i] == c && c !in s[..i]
    ensures IndexOf(s, c) == i
  {
    if i > 0 {
      assert s[..i][0] == s[0] && s[1..][..i - 1] == s[..i][1..];
      IndexOfIsFirst(s[1..], c, i - 1);
    }
  }

  // ---------- 16-digit hexadecimal numbers ----------

  function HexDigit(d: nat): char
    requires d < 16
  {
    "0123456789abcdef"[d]
  }

  function HexValue(c: char): Option<nat>
  {
    if '0' <= c <= '9' then Some(c as int - '0' as int)
    else if 'a' <= c <= 'f' then Some(c as int - 'a' as int + 10)
    else if 'A' <= c <= 'F' then Some(c as int - 'A' as int + 10)
    else None
  }

  function Pow16(w: nat): (p: nat)
    ensures p > 0
  {
    if w == 0 then 1 else 16 * Pow16(w - 1)
  }

  /** The last w hexadecimal digits of n, zero-padded. */
  function HexPad(n: nat, w: nat): (s: string)
    ensures |s| == w
  {
    if w == 0 then "" else HexPad(n / 16, w - 1) + [HexDigit(n % 16)]
  }

  function ParseDigits(s: string, acc: ConnID): Option<ConnID>
  {
    if s == "" then Some(acc)
    else match HexValue(s[0])
      case None => None
      case Some(d) => if acc * 16 + d >= UINT64_LIMIT then None else ParseDigits(s[1..], acc * 16 + d)
  }

  /** strconv.ParseUint(s, 16, 64). */
  function ParseHex(s: string): Option<ConnID>
  {
    if s == "" then None else ParseDigits(s, 0)
  }

  lemma {:induction false} ParseDigitsOfHexPad(n: ConnID, w: nat, rest: string)
    requires n < Pow16(w)
    ensures ParseDigits(HexPad(n, w) + rest, 0) == ParseDigits(rest, n)
    decreases w
  {
    if w == 0 {
      assert HexPad(n, w) + rest == rest;
    } else {
      var tail := [HexDigit(n % 16)] + rest;
      assert HexPad(n, w) + rest == HexPad(n / 16, w - 1) + tail;
      ParseDigitsOfHexPad(n / 16, w - 1, tail);
      assert tail[1..] == rest;
    }
  }

  lemma ParseHexOfHexPad(n: ConnID)
    ensures ParseHex(HexPad(n, 16)) == Some(n)
  {
    assert Pow16(16) == UINT64_LIMIT by {
      assert Pow16(4) == 0x1_0000;
      assert Pow16(8) == 0x1_0000_0000;
      assert Pow16(12) == 0x1_0000_0000_0000;
    }
    ParseDigitsOfHexPad(n, 16, "");
    assert HexPad(n, 16) + "" == HexPad(n, 16);
  }

  // ---------- Keys ----------

  function ClientKey(uid: string, sid: string, connID: ConnID): string
  {
    uid + "|" + (sid + "|" + HexPad(connID, 16))
  }

  function LegacyKey(uid: string, sid: string): string
  {
    uid + "|" + sid
  }

  function ParseKey(key: string): ParsedKey
  {
    ParseParts(SplitN(key, '|', 3))
  }

  function ParseParts(parts: seq<string>): ParsedKey
  {
    if |parts| < 2 || parts[0] == "" || parts[1] == "" then Malformed
    else if |parts| == 2 then Parsed(parts[0], parts[1], 0)
    else match ParseHex(parts[2])
      case None => Parsed(parts[0], parts[1], 0)
      case Some(id) => Parsed(parts[0], parts[1], id)
  }

  /** Digit i of a print has its place value, and is written in lower case. */
  lemma {:induction false} HexDigits(n: nat, w: nat, i: nat)
    requires i < w
    ensures var d := n / Pow16(w - 1 - i) % 16;
      HexPad(n, w)[i] as int == if d < 10 then '0' as int + d else 'a' as int + d - 10
    decreases w
  {
    if i < w - 1 {
      HexDigits(n / 16, w - 1, i);
      var p := Pow16(w - 2 - i);
      assert n / 16 / p == n / (16 * p) by {
        DivTwice(n, p);
      }
    }
  }

  lemma DivTwice(n: nat, p: nat)
    requires p > 0
    ensures n / 16 / p == n / (16 * p)
  {
    var x := n / 16;
    var q := x / p;
    assert n == 16 * x + n % 16 && x == q * p + x % p;
    assert q * (16 * p) == 16 * (q * p);
    DivUnique(n, 16 * p, q, 16 * (x % p) + n % 16);
  }

  lemma DivUnique(n: nat, d: nat, q: nat, r: nat)
    requires d > 0 && n == q * d + r && r < d
    ensures n / d == q
  {
    var e: int := n / d - q;
    assert n == n / d * d + n % d;
    assert e * d == n / d * d - q * d;
    assert e > 0 ==> e * d >= d;
    assert e < 0 ==> e * d <= 0 - d;
  }

  /** A key is the uid, the sid and 16 hexadecimal digits, separated by bars; the legacy key lacks the digits. */
  lemma KeyLayout(uid: string, sid: string, connID: ConnID)
    ensures ClientKey(uid, sid, connID)[..|uid|] == uid
    ensures ClientKey(uid, sid, connID)[..|uid| + 1 + |sid|] == LegacyKey(uid, sid) == uid + "|" + sid
    ensures ClientKey(uid, sid, connID)[|uid| + 1 + |sid|..] == "|" + HexPad(connID, 16)
    ensures |ClientKey(uid, sid, connID)| == |uid| + |sid| + 18
  {
  }

  /** What the keys assume of a user or session id. */
  predicate Plain(id: string)
  {
    id != "" && '|' !in id
  }

  lemma SplitAtFirst(head: string, rest: string, n: nat)
    requires '|' !in head && n > 1
    ensures SplitN(head + "|" + rest, '|', n) == [head] + SplitN(rest, '|', n - 1)
  {
    var s := head + "|" + rest;
    assert s[..|head|] == head && s[|head| + 1..] == rest;
    IndexOfIsFirst(s, '|', |head|);
  }

  /** An id that contains the separator is cut. */
  lemma SplitCutsId(id: string, rest: string, n: nat)
    requires '|' in id && n > 1
    ensures |SplitN(id + "|" + rest, '|', n)[0]| < |id|
  {
    var i := IndexOf(id, '|');
    var s := id + "|" + rest;
    assert s[..i] == id[..i];
    IndexOfIsFirst(s, '|', i);
  }

  /** Printing and parsing a key returns the connection exactly when both ids are plain. */
  lemma ParseKeyOfClientKey(uid: string, sid: string, connID: ConnID)
    ensures ParseKey(ClientKey(uid, sid, connID)) == Parsed(uid, sid, connID) <==> Plain(uid) && Plain(sid)
  {
    var hex := HexPad(connID, 16);
    if '|' in uid {
      SplitCutsId(uid, sid + "|" + hex, 3);
    } else if '|' in sid {
      SplitAtFirst(uid, sid + "|" + hex, 3);
      SplitCutsId(sid, hex, 2);
    } else {
      ParseKeyOfPrintedParts(uid, sid, connID);
    }
  }

  lemma ParseKeyOfPrintedParts(uid: string, sid: string, connID: ConnID)
    requires '|' !in uid && '|' !in sid
    ensures ParseKey(ClientKey(uid, sid, connID)) ==
              if uid == "" || sid == "" then Malformed else Parsed(uid, sid, connID)
  {
    var hex := HexPad(connID, 16);
    SplitThree(uid, sid, hex);
    ParseHexOfHexPad(connID);
  }

  lemma SplitThree(uid: string, sid: string, rest: string)
    requires '|' !in uid && '|' !in sid
    ensures SplitN(uid + "|" + (sid + "|" + rest), '|', 3) == [uid, sid, rest]
  {
    SplitAtFirst(uid, sid + "|" + rest, 3);
    SplitAtFirst(sid, rest, 2);
  }

  lemma ParseKeyOfLegacyKey(uid: string, sid: string)
    requires Plain(uid) && Plain(sid)
    ensures ParseKey(LegacyKey(uid, sid)) == Parsed(uid, sid, 0)
  {
    SplitAtFirst(uid, sid, 3);
    assert IndexOf(sid, '|') == |sid|;
  }

  /** Different connections have different keys, and a legacy key is no connection's key. */
  lemma KeysAreDistinct(uid: string, sid: string, connID: ConnID, uid': string, sid': string, connID': ConnID)
    requires Plain(uid) && Plain(sid) && Plain(uid') && Plain(sid')
    requires connID != 0 && connID' != 0
    ensures ClientKey(uid, sid, connID) == ClientKey(uid', sid', connID') ==>
              uid == uid' && sid == sid' && connID == connID'
    ensures ClientKey(uid, sid, connID) != LegacyKey(uid', sid')
  {
    ParseKeyOfClientKey(uid, sid, connID);
    ParseKeyOfClientKey(uid', sid', connID');
    ParseKeyOfLegacyKey(uid', sid');
  }
}
