/**
 Default values of a model element.  Version 1 of the repository keeps all of them in one string: a space
 separates values, and a space or backslash inside a value is preceded by a backslash.  Version 2 gives
 them as an array.
*/
module DefaultValues {
  import opened Common

  predicate Special(c: char) {
    c == ' ' || c == '\\'
  }

  function Escape(s: string): string {
    if s == "" then ""
    else (if Special(s[0]) then ['\\', s[0]] else [s[0]]) + Escape(s[1..])
  }

  // The values of a non-empty list, escaped and separated by single spaces.
  function Encode(values: seq<string>): string
    requires values != []
  {
    if |values| == 1 then Escape(values[0]) else Escape(values[0]) + " " + Encode(values[1..])
  }

  function Prepend(c: char, values: Option<seq<string>>): Option<seq<string>> {
    if values.Some? && values.value != [] then Some([[c] + values.value[0]] + values.value[1..]) else None
  }

  // Split at unescaped spaces and unescape; a backslash may only precede a space or a backslash.
  function Decode(s: string): (values: Option<seq<string>>)
    ensures values.Some? ==> values.value != []
    decreases |s|
  {
    if s == "" then Some([""])
    else if s[0] == ' ' then
      var rest := Decode(s[1..]);
      if rest.Some? then Some([""] + rest.value) else None
    else if s[0] == '\\' then
      if |s| > 1 && Special(s[1]) then Prepend(s[1], Decode(s[2..])) else None
    else Prepend(s[0], Decode(s[1..]))
  }

  // Decoding text that starts with an escaped value puts that value in front of the first decoded one.
  lemma {:induction false} DecodeAfterEscape(v: string, s: string)
    ensures Decode(Escape(v) + s) ==
      var rest := Decode(s);
      if rest.Some? then Some([v + rest.value[0]] + rest.value[1..]) else None
    decreases |v|
  {
    var rest := Decode(s);
    if v == "" {
      assert Escape(v) + s == s;
      if rest.Some? {
        assert "" + rest.value[0] == rest.value[0];
        assert rest.value == [rest.value[0]] + rest.value[1..];
      }
    } else {
      var t := Escape(v[1..]) + s;
      DecodeAfterEscape(v[1..], s);
      if Special(v[0]) {
        assert (Escape(v) + s)[2..] == t;
      } else {
        assert (Escape(v) + s)[1..] == t;
      }
      if rest.Some? {
        ConsConcat(v, rest.value[0]);
      }
    }
  }

  lemma {:induction false} ConsConcat(v: string, w: string)
    requires v != ""
    ensures [v[0]] + (v[1..] + w) == v + w
  {
  }

  // Decoding undoes encoding, for every non-empty list of any strings.
  lemma {:induction false} DecodeEncode(values: seq<string>)
    requires values != []
    ensures Decode(Encode(values)) == Some(values)
    decreases |values|
  {
    var v := values[0];
    assert v + "" == v;
    if |values| == 1 {
      DecodeAfterEscape(v, "");
      assert Escape(v) + "" == Escape(v);
      assert [v] + [""][1..] == values;
    } else {
      DecodeEncode(values[1..]);
      var tail := " " + Encode(values[1..]);
      assert tail[1..] == Encode(values[1..]);
      assert Decode(tail) == Some([""] + values[1..]);
      DecodeAfterEscape(v, tail);
      assert Escape(v) + " " + Encode(values[1..]) == Escape(v) + tail;
      assert ([""] + values[1..])[1..] == values[1..];
      assert [v] + values[1..] == values;
    }
  }

  lemma {:induction false} EncodePrepend(c: char, values: seq<string>)
    requires values != []
    ensures Encode([[c] + values[0]] + values[1..]) == (if Special(c) then ['\\', c] else [c]) + Encode(values)
  {
    var w := [[c] + values[0]] + values[1..];
    assert w[1..] == values[1..];
    assert ([c] + values[0])[1..] == values[0];
  }

  // And encoding undoes decoding: every string that decodes is the encoding of what it decodes to.
  lemma {:induction false} EncodeDecode(s: string)
    requires Decode(s).Some?
    ensures Encode(Decode(s).value) == s
    decreases |s|
  {
    if s == "" {
    } else if s[0] == ' ' {
      EncodeDecode(s[1..]);
      var rest := Decode(s[1..]).value;
      assert ([""] + rest)[1..] == rest;
      assert "" + " " + Encode(rest) == s;
    } else if s[0] == '\\' {
      EncodeDecode(s[2..]);
      EncodePrepend(s[1], Decode(s[2..]).value);
      assert s == ['\\', s[1]] + s[2..];
    } else {
      EncodeDecode(s[1..]);
      EncodePrepend(s[0], Decode(s[1..]).value);
      assert s == [s[0]] + s[1..];
    }
  }

  // Different lists never share an encoding.
  lemma {:induction false} EncodeInjective(a: seq<string>, b: seq<string>)
    requires a != [] && b != [] && Encode(a) == Encode(b)
    ensures a == b
  {
    DecodeEncode(a);
    DecodeEncode(b);
  }

  // A string is well formed exactly when it encodes some list.
  lemma {:induction false} WellFormedIffEncoded(s: string)
    ensures Decode(s).Some? <==> exists values :: values != [] && Encode(values) == s
  {
    if Decode(s).Some? {
      EncodeDecode(s);
    }
    if exists values :: values != [] && Encode(values) == s {
      var values :| values != [] && Encode(values) == s;
      DecodeEncode(values);
    }
  }

  // ------------------------------------------------------------------ the text itself

  // Text without spaces and backslashes stands for itself.
  lemma {:induction false} PlainText(v: string)
    requires forall i :: 0 <= i < |v| ==> v[i] != ' ' && v[i] != '\\'
    ensures Escape(v) == v
  {
    if v != "" {
      assert v == [v[0]] + v[1..];
      PlainText(v[1..]);
    }
  }

  // Each of the two is preceded by a backslash.
  lemma {:induction false} MarkedText()
    ensures Escape(" ") == "\\ " && Escape("\\") == "\\\\"
  {
    assert " "[1..] == "" && "\\"[1..] == "";
  }

  lemma {:induction false} EscapeConcat(v: string, w: string)
    ensures Escape(v + w) == Escape(v) + Escape(w)
  {
    if v == "" {
      assert v + w == w;
    } else {
      assert (v + w)[0] == v[0] && (v + w)[1..] == v[1..] + w;
      EscapeConcat(v[1..], w);
      ConcatAssoc(if Special(v[0]) then ['\\', v[0]] else [v[0]], Escape(v[1..]), Escape(w));
    }
  }

  // Two lists are put together with one space between them.
  lemma {:induction false} EncodeConcat(a: seq<string>, b: seq<string>)
    requires a != [] && b != []
    ensures Encode([a[0]]) == Escape(a[0]) && Encode(a + b) == Encode(a) + " " + Encode(b)
  {
    assert (a + b)[1..] == a[1..] + b;
    if |a| > 1 {
      EncodeConcat(a[1..], b);
      assert Escape(a[0]) + " " + (Encode(a[1..]) + " " + Encode(b))
          == (Escape(a[0]) + " " + Encode(a[1..])) + " " + Encode(b);
    }
  }

  // Version 2's getter over version 1's field.
  function GetDefaultValue(field: Option<string>): (ReturnCode, seq<string>) {
    if field.None? then (NotExist, [])
    else
      var values := Decode(field.value);
      if values.None? then (Failure, []) else (Ok, values.value)
  }

  // Both versions tell the same list: what version 2 gives is the list whose encoding version 1 holds.
  lemma {:induction false} VersionsAgree(field: Option<string>, values: seq<string>)
    requires values != []
    ensures GetDefaultValue(field) == (Ok, values) <==> field == Some(Encode(values))
    ensures GetDefaultValue(field).0 == NotExist <==> field.None?
  {
    DecodeEncode(values);
    if field.Some? && Decode(field.value).Some? {
      EncodeDecode(field.value);
    }
  }
}
