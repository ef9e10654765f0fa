/** The sizes that the daemon compares with its limits, against the texts they are the sizes of: UTF-8, UTF-16, and the
    JSON text of the state file. */
module KeyValueSizes {
  import opened Options
  import opened KeyValueModel

  // ----- UTF-8 and UTF-16 -----

  /** One character in UTF-8, as bytes. */
  function Utf8Char(c: char): seq<nat> {
    var n := c as int;
    if n <= 0x7f then [n]
    else if n <= 0x7ff then [0xc0 + n / 0x40, 0x80 + n % 0x40]
    else if n <= 0xffff then [0xe0 + n / 0x1000, 0x80 + n / 0x40 % 0x40, 0x80 + n % 0x40]
    else [0xf0 + n / 0x4_0000, 0x80 + n / 0x1000 % 0x40, 0x80 + n / 0x40 % 0x40, 0x80 + n % 0x40]
  }

  function Utf8(s: string): seq<nat> {
    if s == [] then [] else Utf8Char(s[0]) + Utf8(s[1..])
  }

  /** One character in UTF-16: outside the basic plane, two surrogates. */
  function Utf16Char(c: char): seq<nat> {
    var n := c as int;
    if n <= 0xffff then [n] else [0xd800 + (n - 0x1_0000) / 0x400, 0xdc00 + (n - 0x1_0000) % 0x400]
  }

  function Utf16(s: string): seq<nat> {
    if s == [] then [] else Utf16Char(s[0]) + Utf16(s[1..])
  }

  lemma {:induction false} BytesIsUtf8(s: string)
    ensures Bytes(s) == |Utf8(s)|
  {
    if s != [] {
      BytesIsUtf8(s[1..]);
    }
  }

  lemma {:induction false} UnitsIsUtf16(s: string)
    ensures Units(s) == |Utf16(s)|
  {
    if s != [] {
      UnitsIsUtf16(s[1..]);
    }
  }

  lemma {:induction false} BytesConcat(a: string, b: string)
    ensures Bytes(a + b) == Bytes(a) + Bytes(b)
  {
    if a == [] {
      assert a + b == b;
    } else {
      assert (a + b)[1..] == a[1..] + b;
      BytesConcat(a[1..], b);
    }
  }

  // ----- The text of the state file -----

  const HEX := "0123456789abcdef"

  /** A character as `JSON.stringify` writes it inside a string. */
  function Escaped(c: char): string {
    var n := c as int;
    if c == '\"' || c == '\\' then ['\\', c]
    else if n == 8 then "\\b"
    else if n == 9 then "\\t"
    else if n == 10 then "\\n"
    else if n == 12 then "\\f"
    else if n == 13 then "\\r"
    else if n <= 31 then "\\u00" + [HEX[n / 16], HEX[n % 16]]
    else [c]
  }

  function Quoted(s: string): string {
    if s == [] then "" else Escaped(s[0]) + Quoted(s[1..])
  }

  /** An entry of the array: a key and a value, which is its own text. */
  function EntryText(e: Entry): string {
    "[\"" + Quoted(e.key) + "\"," + e.value + "]"
  }

  function Joined(values: Values): string
    decreases |values|
  {
    if values == [] then ""
    else if |values| == 1 then EntryText(values[0])
    else Joined(values[..|values| - 1]) + "," + EntryText(values[|values| - 1])
  }

  function FileText(values: Values): string {
    "[" + Joined(values) + "]"
  }

  lemma {:induction false} AsciiBytes(s: string)
    requires forall c <- s :: (c as int) < 0x80
    ensures Bytes(s) == |s|
  {
    if s != [] {
      assert s[0] in s && forall c <- s[1..] :: c in s;
      AsciiBytes(s[1..]);
    }
  }

  lemma EscapedBytes(c: char)
    ensures Bytes(Escaped(c)) == QuotedCharBytes(c)
  {
    var e := Escaped(c);
    if e == [c] {
      assert [c][1..] == [];
    } else {
      AsciiBytes(e);
    }
  }

  lemma {:induction false} QuotedIsSized(s: string)
    ensures Bytes(Quoted(s)) == QuotedBytes(s)
  {
    if s != [] {
      EscapedBytes(s[0]);
      BytesConcat(Escaped(s[0]), Quoted(s[1..]));
      QuotedIsSized(s[1..]);
    }
  }

  lemma EntryIsSized(e: Entry)
    ensures Bytes(EntryText(e)) == EntryBytes(e)
  {
    hide Bytes, Quoted, QuotedBytes;
    QuotedIsSized(e.key);
    AsciiBytes("[\"");
    AsciiBytes("\",");
    AsciiBytes("]");
    BytesConcat("[\"", Quoted(e.key));
    BytesConcat("[\"" + Quoted(e.key), "\",");
    BytesConcat("[\"" + Quoted(e.key) + "\",", e.value);
    BytesConcat("[\"" + Quoted(e.key) + "\"," + e.value, "]");
  }

  lemma {:induction false} ListIsSized(values: Values)
    ensures Bytes(Joined(values)) == ListBytes(values)
    decreases |values|
  {
    if values != [] {
      var n := |values| - 1;
      EntryIsSized(values[n]);
      if n > 0 {
        ListIsSized(values[..n]);
        AsciiBytes(",");
        BytesConcat(Joined(values[..n]), ",");
        BytesConcat(Joined(values[..n]) + ",", EntryText(values[n]));
      }
    }
  }

  /** What is compared with the limit of the file is the length of its JSON text in UTF-8. */
  lemma FileIsSized(values: Values)
    ensures TextBytes(values) == |Utf8(FileText(values))|
  {
    ListIsSized(values);
    AsciiBytes("[");
    AsciiBytes("]");
    BytesConcat("[", Joined(values));
    BytesConcat("[" + Joined(values), "]");
    BytesIsUtf8(FileText(values));
  }
}
