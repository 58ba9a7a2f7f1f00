/** A reversible text encoding of a list of string fields into one string
    with no space in it. It stands in for the two encodings the system gets
    from libraries: the payload of a signed token, and `JSON.stringify` of
    the user record kept in the browser's storage. */
module Codec {
  import opened Wrappers
  import Strings

  /** Separates the encoded fields. */
  const FieldSeparator: char := '.'

  /** Introduces a two-character escape. */
  const EscapeMark: char := '~'

  /** One character in escaped form: the mark, the separator and the space
      become the mark followed by a code character; others stand for themselves. */
  function Quote(c: char): string
  {
    if c == EscapeMark then [EscapeMark, '~']
    else if c == FieldSeparator then [EscapeMark, ',']
    else if c == ' ' then [EscapeMark, '_']
    else [c]
  }

  /** The character a code character after the mark stands for. */
  function Unquote(code: char): Option<char>
  {
    if code == '~' then Some(EscapeMark)
    else if code == ',' then Some(FieldSeparator)
    else if code == '_' then Some(' ')
    else None
  }

  function Escape(s: string): (t: string)
    ensures FieldSeparator !in t && ' ' !in t
  {
    if s == [] then [] else Quote(s[0]) + Escape(s[1..])
  }

  /** Undoes `Escape`; fails on a bare separator or space and on an unknown
      or unfinished escape. */
  function Unescape(t: string): (s: Option<string>)
    ensures s.Some? ==> FieldSeparator !in t && ' ' !in t
    decreases |t|
  {
    if t == [] then Some([])
    else if t[0] == EscapeMark then
      if |t| < 2 then None
      else match (Unquote(t[1]), Unescape(t[2..]))
        case (Some(c), Some(rest)) => Some([c] + rest)
        case _ => None
    else if t[0] == FieldSeparator || t[0] == ' ' then None
    else match Unescape(t[1..])
      case Some(rest) => Some([t[0]] + rest)
      case None => None
  }

  lemma {:induction false} UnescapeEscape(s: string)
    ensures Unescape(Escape(s)) == Some(s)
  {
    if s != [] {
      UnescapeEscape(s[1..]);
      var t := Escape(s);
      assert t == Quote(s[0]) + Escape(s[1..]);
      if s[0] == EscapeMark || s[0] == FieldSeparator || s[0] == ' ' {
        assert t[2..] == Escape(s[1..]);
      } else {
        assert t[1..] == Escape(s[1..]);
      }
      assert s == [s[0]] + s[1..];
    }
  }

  /** Every string `Unescape` accepts is the escaped form of what it decodes to. */
  lemma {:induction false} EscapeUnescape(t: string, s: string)
    requires Unescape(t) == Some(s)
    ensures Escape(s) == t
    decreases |t|
  {
    if t != [] {
      if t[0] == EscapeMark {
        EscapeUnescape(t[2..], Unescape(t[2..]).value);
        assert t == t[..2] + t[2..];
      } else {
        EscapeUnescape(t[1..], Unescape(t[1..]).value);
        assert t == [t[0]] + t[1..];
      }
    }
  }

  function EscapeAll(fields: seq<string>): (pieces: seq<string>)
    ensures |pieces| == |fields|
    ensures forall i :: 0 <= i < |fields| ==> pieces[i] == Escape(fields[i])
  {
    if fields == [] then [] else [Escape(fields[0])] + EscapeAll(fields[1..])
  }

  /** Unescapes every piece, or fails if some piece does not unescape. */
  function UnescapeAll(pieces: seq<string>): (fields: Option<seq<string>>)
    ensures fields.Some? <==> forall i :: 0 <= i < |pieces| ==> Unescape(pieces[i]).Some?
    ensures fields.Some? ==>
              && |fields.value| == |pieces|
              && forall i :: 0 <= i < |pieces| ==> Unescape(pieces[i]) == Some(fields.value[i])
  {
    if pieces == [] then Some([])
    else match (Unescape(pieces[0]), UnescapeAll(pieces[1..]))
      case (Some(f), Some(rest)) => Some([f] + rest)
      case _ => None
  }

  /** The fields, escaped and joined by the separator. */
  function Encode(fields: seq<string>): (t: string)
    ensures ' ' !in t
  {
    Strings.JoinAvoids(EscapeAll(fields), FieldSeparator, ' ');
    Strings.Join(EscapeAll(fields), FieldSeparator)
  }

  function Decode(t: string): Option<seq<string>>
  {
    UnescapeAll(Strings.Split(t, FieldSeparator))
  }

  /** Decoding recovers any non-empty list of fields. */
  lemma DecodeEncode(fields: seq<string>)
    requires |fields| >= 1
    ensures Decode(Encode(fields)) == Some(fields)
  {
    var pieces := EscapeAll(fields);
    Strings.SplitJoin(pieces, FieldSeparator);
    forall i | 0 <= i < |pieces| ensures Unescape(pieces[i]) == Some(fields[i]) {
      UnescapeEscape(fields[i]);
    }
    var decoded := UnescapeAll(pieces);
    assert decoded.Some?;
    assert decoded.value == fields;
  }

  /** Encoding is canonical: every string that decodes is the encoding of its fields. */
  lemma EncodeDecode(t: string, fields: seq<string>)
    requires Decode(t) == Some(fields)
    ensures Encode(fields) == t
  {
    var pieces := Strings.Split(t, FieldSeparator);
    forall i | 0 <= i < |pieces| ensures Escape(fields[i]) == pieces[i] {
      EscapeUnescape(pieces[i], fields[i]);
    }
    assert EscapeAll(fields) == pieces;
    Strings.JoinSplit(t, FieldSeparator);
  }


}
