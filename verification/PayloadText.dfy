/** The texts of spilled payloads: their size in UTF-8, their file names and their line ends. */
module PayloadText {
  import opened Wrappers
  import opened PayloadSpill

  // ---- UTF-8 ----

  /** The bytes of a character in UTF-8. */
  function Utf8(c: char): seq<int> {
    var p := c as int;
    if p < 128 then [p]
    else if p < 2048 then [192 + p / 64, 128 + p % 64]
    else if p < 65536 then [224 + p / 4096, 128 + p / 64 % 64, 128 + p % 64]
    else [240 + p / 262144, 128 + p / 4096 % 64, 128 + p / 64 % 64, 128 + p % 64]
  }

  /** What bytes lead with tells their number, and their low bits the character. */
  function CodePoint(bytes: seq<int>): int {
    if |bytes| == 1 then bytes[0]
    else if |bytes| == 2 then bytes[0] % 32 * 64 + bytes[1] % 64
    else if |bytes| == 3 then (bytes[0] % 16 * 64 + bytes[1] % 64) * 64 + bytes[2] % 64
    else if |bytes| == 4 then ((bytes[0] % 8 * 64 + bytes[1] % 64) * 64 + bytes[2] % 64) * 64 + bytes[3] % 64
    else 0
  }

  lemma Lead(base: int, size: int, q: int)
    requires (base, size) in [(192, 32), (224, 16), (240, 8), (128, 64)] && 0 <= q < size
    ensures (base + q) % size == q && 0 <= base + q < 256
  {
  }

  lemma Parts(p: int)
    requires 0 <= p < 0x110000
    ensures p / 64 / 64 == p / 4096 && p / 4096 / 64 == p / 262144
    ensures p / 64 * 64 + p % 64 == p && p / 4096 * 64 + p / 64 % 64 == p / 64
    ensures p / 262144 * 64 + p / 4096 % 64 == p / 4096 && p / 262144 < 8
  {
  }

  /** Such bytes read back as the character. */
  lemma Utf8Reads(c: char)
    ensures CodePoint(Utf8(c)) == c as int
    ensures forall i :: 0 <= i < |Utf8(c)| ==> 0 <= Utf8(c)[i] < 256
  {
    var p := c as int;
    Parts(p);
    Lead(128, 64, p % 64);
    Lead(128, 64, p / 64 % 64);
    Lead(128, 64, p / 4096 % 64);
    if 128 <= p < 2048 { Lead(192, 32, p / 64); }
    else if 2048 <= p < 65536 { Lead(224, 16, p / 4096); }
    else if 65536 <= p { Lead(240, 8, p / 262144); }
  }

  function Utf8Text(s: string): seq<int> {
    if s == "" then [] else Utf8(s[0]) + Utf8Text(s[1..])
  }

  lemma {:induction false} BytesAreUtf8(s: string)
    ensures Bytes(s) == |Utf8Text(s)|
  {
    if s != "" { BytesAreUtf8(s[1..]); }
  }

  /** Exactly the strings of more than 2048 bytes are spilled, into files named after their event and contents. */
  lemma SpillsExactly(n: Naming, s: string)
    ensures Spilled(n, Str(s)) ==
            if |Utf8Text(s)| <= 2048 then Str(s)
            else Obj([Field("$ref", Str("events_blobs/" + SafeFilename(n.alnum, n.agent) + "-"
                                        + SafeFilename(n.alnum, n.kind) + "-" + SafeFilename(n.alnum, n.callId) + "-"
                                        + n.digest(s) + ".txt"))])
  {
    BytesAreUtf8(s);
  }

  /** A part of a file name is as long as its text, up to 120 characters; each is the text's if that is a letter,
      a digit or one of `-`, `_` and `.`, and `_` otherwise. */
  lemma SafeFilenameIs(alnum: char -> bool, part: string)
    ensures var name := SafeFilename(alnum, part);
            && |name| == (if |part| < 120 then |part| else 120)
            && forall i :: 0 <= i < |name| ==> name[i] == if alnum(part[i]) || part[i] in "-_." then part[i] else '_'
  {
  }

  // ---- Line ends ----

  /** Text without carriage returns is read as it is. */
  lemma {:induction false} NormalKeeps(s: string)
    requires '\r' !in s
    ensures Normal(s) == s
  {
    if s != "" { NormalKeeps(s[1..]); }
  }

  lemma {:induction false} NormalAfter(s: string, rest: string)
    requires '\r' !in s
    ensures Normal(s + rest) == s + Normal(rest)
  {
    if s == "" {
      assert s + rest == rest;
    } else {
      assert (s + rest)[1..] == s[1..] + rest;
      NormalAfter(s[1..], rest);
    }
  }

  /** Up to its first carriage return a text is read as it is; that, with a newline after it if there is one,
      is read as a newline; and so on with the rest. */
  lemma NormalAtReturn(s: string, rest: string)
    requires '\r' !in s
    ensures Normal(s + "\r\n" + rest) == s + "\n" + Normal(rest)
    ensures rest == "" || rest[0] != '\n' ==> Normal(s + "\r" + rest) == s + "\n" + Normal(rest)
  {
    var crlf, cr := "\r\n" + rest, "\r" + rest;
    assert s + "\r\n" + rest == s + crlf && s + "\r" + rest == s + cr;
    NormalAfter(s, crlf);
    NormalAfter(s, cr);
    assert crlf[0] == '\r' && crlf[1] == '\n' && crlf[2..] == rest;
    assert cr[0] == '\r' && cr[1..] == rest;
    assert Normal(crlf) == "\n" + Normal(rest);
    assert s + ("\n" + Normal(rest)) == s + "\n" + Normal(rest);
  }
}
