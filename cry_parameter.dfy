/**
 * The parameter-line parser of the CRY cosmic-ray generator: a line such as
 * "type name = {value}" becomes a parameter name and a parameter value.
 *
 * The constructor reads the line through std::istringstream and
 * std::getline.  A stream is modelled as its text, a read position and the
 * eof flag; the fail flag is not tracked because in this parser it is only
 * ever raised together with eof.  assert(0) on a malformed line becomes a
 * Failure result.
 */
module CRYAbsParameter {
  import opened Outcomes

  /** The two fields the constructor fills: _name and _paramStr. */
  datatype Parameter = Parameter(name: string, value: string)

  /** The three malformed lines the constructor rejects. */
  datatype ParseError = MissingOpenBrace | MissingCloseBrace | ExtraData

  // ---------------------------------------------------------------------------
  // Strings and streams
  // ---------------------------------------------------------------------------

  /** The first position at or after `from` holding c (std::string::find). */
  function IndexOf(s: string, c: char, from: nat): (r: Option<nat>)
    requires from <= |s|
    ensures r.Some? ==> from <= r.value < |s| && s[r.value] == c && forall i :: from <= i < r.value ==> s[i] != c
    ensures r.None? ==> forall i :: from <= i < |s| ==> s[i] != c
    decreases |s| - from
  {
    if from == |s| then None
    else if s[from] == c then Some(from)
    else IndexOf(s, c, from + 1)
  }

  /** An istringstream over `text`, positioned at `pos`. */
  datatype InputStream = InputStream(text: string, pos: nat, eof: bool)

  predicate ValidStream(st: InputStream)
  {
    st.pos <= |st.text|
  }

  function Open(text: string): (st: InputStream)
    ensures ValidStream(st) && !st.eof
  {
    InputStream(text, 0, false)
  }

  /**
   * std::getline(is, str, delim): with eof already set the sentry fails and
   * str is left as it was; otherwise str becomes the characters up to the
   * next delimiter, which is consumed, or up to the end of the text, which
   * sets eof.
   */
  function GetLine(st: InputStream, delim: char, str: string): (r: (InputStream, string))
    requires ValidStream(st)
    ensures ValidStream(r.0) && r.0.text == st.text
    ensures st.eof ==> r == (st, str)
    ensures !st.eof ==> delim !in r.1
    ensures !st.eof && r.0.eof ==> r.0.pos == |st.text| && r.1 == st.text[st.pos..]
    ensures !st.eof && !r.0.eof ==> st.pos < r.0.pos && st.text[st.pos..r.0.pos] == r.1 + [delim]
  {
    if st.eof then (st, str)
    else
      match IndexOf(st.text, delim, st.pos)
      case Some(k) => (InputStream(st.text, k + 1, false), st.text[st.pos..k])
      case None => (InputStream(st.text, |st.text|, true), st.text[st.pos..])
  }

  /**
   * The fields of s between the occurrences of d, as repeated getline calls
   * deliver them: one more field than s has delimiters, empty fields
   * included.
   */
  function Split(s: string, d: char): (r: seq<string>)
    ensures |r| >= 1
  {
    if s == [] then [""]
    else
      var rest := Split(s[1..], d);
      if s[0] == d then [""] + rest
      else [[s[0]] + rest[0]] + rest[1..]
  }

  /** The fields joined back with the delimiter between them. */
  function Join(fields: seq<string>, d: char): string
    requires |fields| >= 1
  {
    if |fields| == 1 then fields[0] else fields[0] + [d] + Join(fields[1..], d)
  }

  /** The fields joined without a separator (repeated std::string::append). */
  function Concat(fields: seq<string>): string
  {
    if fields == [] then "" else fields[0] + Concat(fields[1..])
  }

  /** s without any occurrence of d. */
  function Remove(s: string, d: char): (r: string)
    ensures d !in r
  {
    if s == [] then "" else (if s[0] == d then "" else [s[0]]) + Remove(s[1..], d)
  }

  /** The non-empty fields, in order. */
  function NonEmpty(fields: seq<string>): (r: seq<string>)
    ensures |r| <= |fields|
  {
    if fields == [] then [] else (if |fields[0]| > 0 then [fields[0]] else []) + NonEmpty(fields[1..])
  }

  /** n space characters. */
  function Spaces(n: nat): (r: string)
    ensures |r| == n && forall i :: 0 <= i < n ==> r[i] == ' '
  {
    if n == 0 then "" else " " + Spaces(n - 1)
  }

  /** std::string::size_type, the unsigned 64-bit type of positions and lengths. */
  const SizeTypeModulus: int := 0x1_0000_0000_0000_0000

  /** std::string::substr(pos, count): at most count characters from pos. */
  function Substr(s: string, pos: nat, count: nat): (r: string)
    requires pos <= |s|
    ensures |r| <= count && pos + |r| <= |s| && r == s[pos..pos + |r|]
    ensures pos + count <= |s| ==> |r| == count
    ensures pos + count > |s| ==> r == s[pos..]
  {
    if pos + count <= |s| then s[pos..pos + count] else s[pos..]
  }

  // ---------------------------------------------------------------------------
  // The parser as specification functions
  // ---------------------------------------------------------------------------

  /** The name: the fields of lhs split on ' ', except the first, appended together. */
  function NameOf(lhs: string): string
  {
    Concat(Split(lhs, ' ')[1..])
  }

  /** The text between the braces of rhs, or the error for a missing brace. */
  function Region(rhs: string): Result<string, ParseError>
  {
    match IndexOf(rhs, '{', 0)
    case None => Failure(MissingOpenBrace)
    case Some(start) =>
      match IndexOf(rhs, '}', 0)
      case None => Failure(MissingCloseBrace)
      case Some(stop) => Success(Substr(rhs, start + 1, (stop - start - 1) % SizeTypeModulus))
  }

  /** The value: the only non-empty space-separated token of the region, or "" if there is none. */
  function ValueOf(datums: string): Result<string, ParseError>
  {
    var tokens := NonEmpty(Split(datums, ' '));
    if |tokens| >= 2 then Failure(ExtraData)
    else if |tokens| == 1 then Success(tokens[0])
    else Success("")
  }

  /** The whole constructor: lhs and rhs are the first two fields of the line split on '='. */
  function Parse(data: string): Result<Parameter, ParseError>
  {
    var fields := Split(data, '=');
    var rhs := if |fields| >= 2 then fields[1] else "";
    match Region(rhs)
    case Failure(e) => Failure(e)
    case Success(datums) =>
      match ValueOf(datums)
      case Failure(e) => Failure(e)
      case Success(value) => Success(Parameter(NameOf(fields[0]), value))
  }

  /** CRYAbsParameter::print: the line it writes, std::endl as "\n". */
  function Print(p: Parameter): string
  {
    "Parameter name: " + p.name + "  value: " + p.value + "\n"
  }

  // ---------------------------------------------------------------------------
  // The constructor's loops
  // ---------------------------------------------------------------------------

  /** The fields a stream still delivers to getline calls with delimiter d. */
  function Remaining(st: InputStream, d: char): seq<string>
    requires ValidStream(st)
  {
    if st.eof then [] else Split(st.text[st.pos..], d)
  }

  /** The first loop: count the fields of lhs and append all but the first to the name. */
  method ReadName(lhs: string) returns (name: string)
    ensures name == NameOf(lhs)
  {
    var iss2 := Open(lhs);
    var key := "";
    var c := 0;
    name := "";
    ghost var fields: seq<string> := [];
    RemainingOfOpen(lhs, ' ');
    while !iss2.eof
      invariant ValidStream(iss2) && iss2.text == lhs
      invariant fields + Remaining(iss2, ' ') == Split(lhs, ' ')
      invariant c == |fields|
      invariant name == if fields == [] then "" else Concat(fields[1..])
      decreases |lhs| - iss2.pos, if iss2.eof then 0 else 1
    {
      ghost var before := Remaining(iss2, ' ');
      var t := GetLine(iss2, ' ', key);
      RemainingStep(iss2, ' ', key);
      iss2, key := t.0, t.1;
      NameStep(fields, key, name);
      if key != " " {
        c := c + 1;
        if c != 1 {
          name := name + key;
        }
      }
      assert fields + before == (fields + [key]) + Remaining(iss2, ' ');
      fields := fields + [key];
    }
    assert fields == Split(lhs, ' ');
  }

  /** The second loop: keep the one non-empty token of the region, fail on a second one. */
  method ReadValue(datums: string) returns (r: Result<string, ParseError>)
    ensures r == ValueOf(datums)
  {
    var iss3 := Open(datums);
    var key := "";
    var foundIt := false;
    var paramStr := "";
    ghost var fields: seq<string> := [];
    RemainingOfOpen(datums, ' ');
    while !iss3.eof
      invariant ValidStream(iss3) && iss3.text == datums
      invariant fields + Remaining(iss3, ' ') == Split(datums, ' ')
      invariant TokensSoFar(fields, foundIt, paramStr)
      decreases |datums| - iss3.pos, if iss3.eof then 0 else 1
    {
      ghost var before := Remaining(iss3, ' ');
      var t := GetLine(iss3, ' ', key);
      RemainingStep(iss3, ' ', key);
      iss3, key := t.0, t.1;
      assert fields + before == (fields + [key]) + Remaining(iss3, ' ');
      TokenStep(fields, key, foundIt, paramStr);
      if |key| > 0 && key != " " {
        if foundIt {
          ValueExtra(datums, fields + [key], Remaining(iss3, ' '));
          return Failure(ExtraData);
        }
        foundIt := true;
        paramStr := key;
      }
      fields := fields + [key];
    }
    ValueEnd(datums, fields, foundIt, paramStr);
    return Success(paramStr);
  }

  /** The state of the second loop after reading fields: at most one token, kept in paramStr. */
  ghost predicate TokensSoFar(fields: seq<string>, foundIt: bool, paramStr: string)
  {
    |NonEmpty(fields)| <= 1 &&
    (foundIt <==> |NonEmpty(fields)| == 1) &&
    paramStr == if foundIt then NonEmpty(fields)[0] else ""
  }

  /** One field more for the value: a non-empty field is one token more. */
  lemma TokenStep(fields: seq<string>, key: string, foundIt: bool, paramStr: string)
    requires TokensSoFar(fields, foundIt, paramStr) && ' ' !in key
    ensures |key| > 0 && foundIt ==> |NonEmpty(fields + [key])| >= 2
    ensures |key| == 0 ==> TokensSoFar(fields + [key], foundIt, paramStr)
    ensures |key| > 0 && !foundIt ==> TokensSoFar(fields + [key], true, key)
  {
    NonEmptyAppend(fields, [key]);
  }

  /** A second token among the fields read so far is a second token of the region. */
  lemma ValueExtra(datums: string, fields: seq<string>, rest: seq<string>)
    requires fields + rest == Split(datums, ' ') && |NonEmpty(fields)| >= 2
    ensures ValueOf(datums) == Failure(ExtraData)
  {
    NonEmptyAppend(fields, rest);
  }

  /** With every field read, the one token found, or "", is the value. */
  lemma ValueEnd(datums: string, fields: seq<string>, foundIt: bool, paramStr: string)
    requires fields == Split(datums, ' ') && TokensSoFar(fields, foundIt, paramStr)
    ensures ValueOf(datums) == Success(paramStr)
  {
  }

  /** The two getline calls that split data at '=' into its left- and right-hand sides. */
  method ReadSides(data: string) returns (lhs: string, rhs: string)
    ensures lhs == Split(data, '=')[0]
    ensures rhs == if |Split(data, '=')| >= 2 then Split(data, '=')[1] else ""
  {
    var iss := Open(data);
    lhs := "";
    rhs := "";
    RemainingOfOpen(data, '=');
    var t := GetLine(iss, '=', lhs);
    RemainingStep(iss, '=', lhs);
    iss, lhs := t.0, t.1;
    if !iss.eof {
      RemainingStep(iss, '=', rhs);
    }
    t := GetLine(iss, '=', rhs);
    rhs := t.1;
  }

  /** The constructor CRYAbsParameter(std::string data), with assert(0) as a Failure. */
  method Construct(data: string) returns (r: Result<Parameter, ParseError>)
    ensures r == Parse(data)
  {
    var lhs, rhs := ReadSides(data);
    var name := ReadName(lhs);
    var start := IndexOf(rhs, '{', 0);
    var stop := IndexOf(rhs, '}', 0);
    if start.None? {
      return Failure(MissingOpenBrace);
    }
    if stop.None? {
      return Failure(MissingCloseBrace);
    }
    var datums := Substr(rhs, start.value + 1, (stop.value - start.value - 1) % SizeTypeModulus);
    assert Region(rhs) == Success(datums);
    var value := ReadValue(datums);
    if value.Failure? {
      return Failure(value.error);
    }
    return Success(Parameter(name, value.value));
  }

  /** One field more for the name: every field after the first is appended. */
  lemma NameStep(fields: seq<string>, key: string, name: string)
    requires name == if fields == [] then "" else Concat(fields[1..])
    ensures Concat((fields + [key])[1..]) == if fields == [] then name else name + key
  {
    if fields != [] {
      ConcatAppend(fields[1..], key);
      assert (fields + [key])[1..] == fields[1..] + [key];
    } else {
      assert (fields + [key])[1..] == [];
    }
  }

  /** A fresh stream delivers all the fields of its text. */
  lemma RemainingOfOpen(text: string, d: char)
    ensures Remaining(Open(text), d) == Split(text, d)
  {
    assert text[0..] == text;
  }

  /** One getline call delivers the first of the remaining fields. */
  lemma RemainingStep(st: InputStream, d: char, str: string)
    requires ValidStream(st) && !st.eof
    ensures [GetLine(st, d, str).1] + Remaining(GetLine(st, d, str).0, d) == Remaining(st, d)
  {
    FieldsOfGetLine(st, d, str);
  }

  // ---------------------------------------------------------------------------
  // Lemmas about the fields
  // ---------------------------------------------------------------------------

  /** A string without the delimiter is a single field. */
  lemma {:induction false} SplitFree(s: string, d: char)
    requires d !in s
    ensures Split(s, d) == [s]
  {
    if s != [] {
      assert d !in s[1..] by {
        assert forall i :: 0 <= i < |s[1..]| ==> s[1..][i] == s[i + 1];
      }
      SplitFree(s[1..], d);
      assert [s[0]] + s[1..] == s;
    }
  }

  /** Split of two texts joined by a delimiter is the fields of both. */
  lemma {:induction false} SplitAppend(a: string, b: string, d: char)
    ensures Split(a + [d] + b, d) == Split(a, d) + Split(b, d)
  {
    if a == [] {
      assert (a + [d] + b)[1..] == b;
    } else {
      assert (a + [d] + b)[1..] == a[1..] + [d] + b;
      SplitAppend(a[1..], b, d);
    }
  }

  /** No field contains the delimiter. */
  lemma {:induction false} SplitFieldsFree(s: string, d: char)
    ensures forall i :: 0 <= i < |Split(s, d)| ==> d !in Split(s, d)[i]
  {
    if s != [] {
      SplitFieldsFree(s[1..], d);
    }
  }

  /** Joining the fields with the delimiter gives the text back. */
  lemma {:induction false} JoinSplit(s: string, d: char)
    ensures Join(Split(s, d), d) == s
  {
    if s != [] {
      JoinSplit(s[1..], d);
      var rest := Split(s[1..], d);
      if s[0] == d {
        assert s == [d] + s[1..];
      } else if |rest| == 1 {
        assert s == [s[0]] + s[1..];
      } else {
        assert Split(s, d)[1..] == rest[1..];
        assert s == [s[0]] + s[1..];
      }
    }
  }

  /** Splitting delimiter-free fields joined by the delimiter gives the fields back. */
  lemma {:induction false} SplitJoin(fields: seq<string>, d: char)
    requires |fields| >= 1 && forall i :: 0 <= i < |fields| ==> d !in fields[i]
    ensures Split(Join(fields, d), d) == fields
  {
    if |fields| == 1 {
      SplitFree(fields[0], d);
    } else {
      SplitJoin(fields[1..], d);
      SplitAppend(fields[0], Join(fields[1..], d), d);
      SplitFree(fields[0], d);
      assert [fields[0]] + fields[1..] == fields;
    }
  }

  /** Appending the fields is removing the delimiter. */
  lemma {:induction false} ConcatSplit(s: string, d: char)
    ensures Concat(Split(s, d)) == Remove(s, d)
  {
    if s != [] {
      ConcatSplit(s[1..], d);
      var rest := Split(s[1..], d);
      if s[0] != d {
        assert Concat(rest) == rest[0] + Concat(rest[1..]);
      }
    }
  }

  lemma {:induction false} ConcatAppend(fields: seq<string>, f: string)
    ensures Concat(fields + [f]) == Concat(fields) + f
  {
    if fields != [] {
      assert (fields + [f])[1..] == fields[1..] + [f];
      ConcatAppend(fields[1..], f);
    }
  }

  lemma {:induction false} NonEmptyAppend(a: seq<string>, b: seq<string>)
    ensures NonEmpty(a + b) == NonEmpty(a) + NonEmpty(b)
  {
    if a != [] {
      assert (a + b)[0] == a[0];
      assert (a + b)[1..] == a[1..] + b;
      NonEmptyAppend(a[1..], b);
      var h := if |a[0]| > 0 then [a[0]] else [];
      assert NonEmpty(a + b) == h + (NonEmpty(a[1..]) + NonEmpty(b));
      assert NonEmpty(a) == h + NonEmpty(a[1..]);
    } else {
      assert a + b == b;
    }
  }

  /** One getline call on a stream delivers the first field of the unread text. */
  lemma FieldsOfGetLine(st: InputStream, d: char, str: string)
    requires ValidStream(st) && !st.eof
    ensures
      var r := GetLine(st, d, str);
      && (r.0.eof ==> Split(st.text[st.pos..], d) == [r.1])
      && (!r.0.eof ==> Split(st.text[st.pos..], d) == [r.1] + Split(st.text[r.0.pos..], d))
  {
    var r := GetLine(st, d, str);
    SplitFree(r.1, d);
    if !r.0.eof {
      assert st.text[st.pos..] == r.1 + [d] + st.text[r.0.pos..];
      SplitAppend(r.1, st.text[r.0.pos..], d);
    }
  }

  // ---------------------------------------------------------------------------
  // Lemmas about the parser
  // ---------------------------------------------------------------------------

  /**
   * lhs is the text before the first '='; rhs is the text between the first
   * and the second '=', or up to the end; it is empty when there is no '='.
   */
  lemma LhsAndRhs(data: string, k: nat)
    requires k < |data| && data[k] == '=' && '=' !in data[..k]
    ensures |Split(data, '=')| >= 2
    ensures Split(data, '=')[0] == data[..k]
    ensures Split(data, '=')[1] == Split(data[k + 1..], '=')[0]
  {
    assert data == data[..k] + ['='] + data[k + 1..];
    SplitAppend(data[..k], data[k + 1..], '=');
    SplitFree(data[..k], '=');
  }

  /** The name never contains a space. */
  lemma NameHasNoSpace(lhs: string)
    ensures ' ' !in NameOf(lhs)
  {
    var first := IndexOf(lhs, ' ', 0);
    if first.None? {
      NameWithoutSpace(lhs);
    } else {
      NameReference(lhs, first.value);
    }
  }

  /** A left-hand side without a space has the empty name. */
  lemma NameWithoutSpace(lhs: string)
    requires ' ' !in lhs
    ensures NameOf(lhs) == ""
  {
    SplitFree(lhs, ' ');
  }

  /**
   * The name is the text after the first space of lhs with every further
   * space removed.
   */
  lemma NameReference(lhs: string, k: nat)
    requires k < |lhs| && lhs[k] == ' ' && ' ' !in lhs[..k]
    ensures NameOf(lhs) == Remove(lhs[k + 1..], ' ')
  {
    assert lhs == lhs[..k] + [' '] + lhs[k + 1..];
    SplitAppend(lhs[..k], lhs[k + 1..], ' ');
    SplitFree(lhs[..k], ' ');
    assert Split(lhs, ' ')[1..] == Split(lhs[k + 1..], ' ');
    ConcatSplit(lhs[k + 1..], ' ');
  }

  /** A right-hand side without '{' is a missing opening brace, whatever else it holds. */
  lemma RegionNoOpen(rhs: string)
    requires '{' !in rhs
    ensures Region(rhs) == Failure(MissingOpenBrace)
  {
  }

  /** A '{' without any '}' is a missing closing brace. */
  lemma RegionNoClose(rhs: string)
    requires '{' in rhs && '}' !in rhs
    ensures Region(rhs) == Failure(MissingCloseBrace)
  {
  }

  /**
   * With both braces present, the region is the text strictly between the
   * first '{' and the first '}' when '}' comes later; when it comes earlier
   * the length wraps around and the region runs to the end of rhs.
   */
  lemma RegionReference(rhs: string, start: nat, stop: nat)
    requires start < |rhs| && rhs[start] == '{' && '{' !in rhs[..start]
    requires stop < |rhs| && rhs[stop] == '}' && '}' !in rhs[..stop]
    requires |rhs| < SizeTypeModulus
    ensures Region(rhs) == Success(if start < stop then rhs[start + 1..stop] else rhs[start + 1..])
  {
    FirstAt(rhs, '{', start);
    FirstAt(rhs, '}', stop);
    RegionBetween(rhs, start, stop);
  }

  /** A position with no earlier occurrence is what std::string::find(c) returns. */
  lemma FirstAt(s: string, c: char, k: nat)
    requires k < |s| && s[k] == c && c !in s[..k]
    ensures IndexOf(s, c, 0) == Some(k)
  {
    forall i | 0 <= i < k
      ensures s[i] != c
    {
      assert s[i] == s[..k][i];
    }
    IndexOfAt(s, c, 0, k);
  }

  /** The wrapped length of substr(start + 1, stop - start - 1) for two positions of rhs. */
  lemma RegionBetween(rhs: string, start: nat, stop: nat)
    requires start < |rhs| && stop < |rhs| && |rhs| < SizeTypeModulus
    ensures Substr(rhs, start + 1, (stop - start - 1) % SizeTypeModulus)
            == if start < stop then rhs[start + 1..stop] else rhs[start + 1..]
  {
    var count := (stop - start - 1) % SizeTypeModulus;
    if start < stop {
      assert count == stop - start - 1;
    } else {
      assert count == SizeTypeModulus + (stop - start - 1);
    }
  }

  /** Split of n spaces is n + 1 empty fields. */
  lemma {:induction false} SplitSpaces(n: nat)
    ensures NonEmpty(Split(Spaces(n), ' ')) == []
  {
    if n > 0 {
      assert Spaces(n)[1..] == Spaces(n - 1);
      SplitSpaces(n - 1);
    }
  }

  /** A token between any runs of spaces is the value; a region of spaces only gives "". */
  lemma ValuePadded(i: nat, v: string, j: nat)
    requires ' ' !in v
    ensures ValueOf(Spaces(i) + v + Spaces(j)) == Success(v)
  {
    var s := Spaces(i) + v + Spaces(j);
    SplitPaddedToken(i, v, j);
  }

  lemma {:induction false} SplitPaddedToken(i: nat, v: string, j: nat)
    requires ' ' !in v
    ensures NonEmpty(Split(Spaces(i) + v + Spaces(j), ' ')) == if v == "" then [] else [v]
  {
    if i > 0 {
      LeadingSpace(Spaces(i - 1) + v + Spaces(j));
      assert Spaces(i) + v + Spaces(j) == " " + (Spaces(i - 1) + v + Spaces(j));
      SplitPaddedToken(i - 1, v, j);
    } else if j == 0 {
      assert Spaces(i) + v + Spaces(j) == v;
      SplitFree(v, ' ');
    } else {
      assert Spaces(i) + v + Spaces(j) == v + Spaces(j);
      TrailingSpaces(v, j);
    }
  }

  /** A leading space adds an empty field and no token. */
  lemma LeadingSpace(s: string)
    ensures NonEmpty(Split(" " + s, ' ')) == NonEmpty(Split(s, ' '))
  {
    assert (" " + s)[1..] == s;
  }

  /** A space-free token followed by spaces is one token, or none when it is empty. */
  lemma TrailingSpaces(v: string, j: nat)
    requires ' ' !in v && j > 0
    ensures NonEmpty(Split(v + Spaces(j), ' ')) == if v == "" then [] else [v]
  {
    assert v + Spaces(j) == v + [' '] + Spaces(j - 1);
    SplitAppend(v, Spaces(j - 1), ' ');
    SplitFree(v, ' ');
    SplitSpaces(j - 1);
    NonEmptyAppend([v], Split(Spaces(j - 1), ' '));
  }

  /** A text with a non-space character has a non-empty field. */
  lemma {:induction false} SomeToken(s: string, i: nat)
    requires i < |s| && s[i] != ' '
    ensures NonEmpty(Split(s, ' ')) != []
  {
    if s[0] == ' ' {
      SomeToken(s[1..], i - 1);
      NonEmptyAppend([""], Split(s[1..], ' '));
    } else {
      assert |Split(s, ' ')[0]| > 0;
    }
  }

  /** Two non-space characters with a space between them are two tokens, which is an error. */
  lemma ValueExtraData(s: string, i: nat, j: nat, k: nat)
    requires i < j < k < |s| && s[i] != ' ' && s[j] == ' ' && s[k] != ' '
    ensures ValueOf(s) == Failure(ExtraData)
  {
    assert s == s[..j] + [' '] + s[j + 1..];
    SplitAppend(s[..j], s[j + 1..], ' ');
    NonEmptyAppend(Split(s[..j], ' '), Split(s[j + 1..], ' '));
    SomeToken(s[..j], i);
    SomeToken(s[j + 1..], k - j - 1);
  }

  /** The value never contains a space. */
  lemma ValueHasNoSpace(datums: string)
    ensures ValueOf(datums).Success? ==> ' ' !in ValueOf(datums).value
  {
    var fields := Split(datums, ' ');
    SplitFieldsFree(datums, ' ');
    NonEmptyFromFields(fields);
  }

  lemma {:induction false} NonEmptyFromFields(fields: seq<string>)
    ensures forall t :: t in NonEmpty(fields) ==> t in fields && |t| > 0
  {
    if fields != [] {
      NonEmptyFromFields(fields[1..]);
    }
  }

  /**
   * A well-formed line "type name = {value}" parses back to its name and
   * value, for a type and a name without spaces or '=' and a value without
   * spaces, '=' or '}' that fits in a std::string::size_type.
   */
  lemma ParseRoundTrip(typ: string, name: string, value: string)
    requires ' ' !in typ && '=' !in typ && ' ' !in name && '=' !in name
    requires ' ' !in value && '=' !in value && '}' !in value && |value| < SizeTypeModulus
    ensures Parse(typ + " " + name + " = {" + value + "}") == Success(Parameter(name, value))
  {
    var lhs := typ + " " + name + " ";
    var rhs := " {" + value + "}";
    RoundTripSides(typ, name, value);
    RoundTripName(typ, name);
    RoundTripRegion(value);
    ValuePadded(0, value, 0);
    assert Spaces(0) + value + Spaces(0) == value;
  }

  lemma RoundTripSides(typ: string, name: string, value: string)
    requires '=' !in typ && '=' !in name && '=' !in value
    ensures Split(typ + " " + name + " = {" + value + "}", '=') == [typ + " " + name + " ", " {" + value + "}"]
  {
    SidesOfLine(typ, name, value);
    SidesWithoutEquals(typ, name, value);
    SplitTwo(typ + " " + name + " ", " {" + value + "}", '=');
  }

  /** The line is its left-hand side, '=' and its right-hand side. */
  lemma SidesOfLine(typ: string, name: string, value: string)
    ensures typ + " " + name + " = {" + value + "}" == (typ + " " + name + " ") + ['='] + (" {" + value + "}")
  {
  }

  lemma SidesWithoutEquals(typ: string, name: string, value: string)
    requires '=' !in typ && '=' !in name && '=' !in value
    ensures '=' !in typ + " " + name + " " && '=' !in " {" + value + "}"
  {
    assert multiset(typ + " " + name + " ") == multiset(typ) + multiset(name) + multiset{' ', ' '};
    assert multiset(" {" + value + "}") == multiset(value) + multiset{' ', '{', '}'};
  }

  /** Two delimiter-free texts joined by the delimiter are two fields. */
  lemma SplitTwo(a: string, b: string, d: char)
    requires d !in a && d !in b
    ensures Split(a + [d] + b, d) == [a, b]
  {
    SplitAppend(a, b, d);
    SplitFree(a, d);
    SplitFree(b, d);
  }

  lemma RoundTripName(typ: string, name: string)
    requires ' ' !in typ && ' ' !in name
    ensures NameOf(typ + " " + name + " ") == name
  {
    var lhs := typ + " " + name + " ";
    assert lhs[..|typ|] == typ;
    assert lhs[|typ|] == ' ';
    NameReference(lhs, |typ|);
    assert lhs[|typ| + 1..] == name + " ";
    RemoveSpace(name);
  }

  lemma RoundTripRegion(value: string)
    requires '}' !in value && |value| < SizeTypeModulus
    ensures Region(" {" + value + "}") == Success(value)
  {
    var rhs := " {" + value + "}";
    assert IndexOf(rhs, '{', 0) == Some(1);
    IndexOfBrace(rhs, value);
    assert (|value| + 2 - 1 - 1) % SizeTypeModulus == |value|;
    assert rhs[2..2 + |value|] == value;
  }

  lemma {:induction false} RemoveSpace(name: string)
    requires ' ' !in name
    ensures Remove(name + " ", ' ') == name
  {
    if name != [] {
      assert (name + " ")[1..] == name[1..] + " ";
      RemoveSpace(name[1..]);
    } else {
      assert " "[1..] == "";
    }
  }

  /** The first occurrence is the one with no occurrence before it. */
  lemma {:induction false} IndexOfAt(s: string, c: char, from: nat, k: nat)
    requires from <= k < |s| && s[k] == c
    requires forall i :: from <= i < k ==> s[i] != c
    ensures IndexOf(s, c, from) == Some(k)
    decreases k - from
  {
    if from < k {
      IndexOfAt(s, c, from + 1, k);
    }
  }

  lemma IndexOfBrace(rhs: string, value: string)
    requires rhs == " {" + value + "}" && '}' !in value
    ensures IndexOf(rhs, '}', 0) == Some(|value| + 2)
  {
    forall i | 0 <= i < |value| + 2
      ensures rhs[i] != '}'
    {
      if i >= 2 {
        assert rhs[i] == value[i - 2];
      }
    }
    IndexOfAt(rhs, '}', 0, |value| + 2);
  }

  /**
   * print writes "Parameter name: ", the name, "  value: ", the value and a
   * newline; two parameters whose names have no space (which every parsed
   * name satisfies) print the same line only when they are the same.
   */
  lemma PrintInjective(p: Parameter, q: Parameter)
    requires ' ' !in p.name && ' ' !in q.name
    requires Print(p) == Print(q)
    ensures p == q
  {
    var pre := "Parameter name: ";
    var mid := "  value: ";
    NameEnd(p);
    NameEnd(q);
    assert |p.name| == |q.name|;
    assert p.name == Print(p)[|pre|..|pre| + |p.name|];
    assert q.name == Print(q)[|pre|..|pre| + |q.name|];
    assert p.value == Print(p)[|pre| + |p.name| + |mid|..|Print(p)| - 1];
    assert q.value == Print(q)[|pre| + |q.name| + |mid|..|Print(q)| - 1];
  }

  /** In a printed line, the first space after the label ends the name. */
  lemma NameEnd(p: Parameter)
    requires ' ' !in p.name
    ensures IndexOf(Print(p), ' ', |"Parameter name: "|) == Some(|"Parameter name: "| + |p.name|)
  {
    var pre := "Parameter name: ";
    var line := Print(p);
    assert line == pre + p.name + ("  value: " + p.value + "\n");
    forall i | |pre| <= i < |pre| + |p.name|
      ensures line[i] != ' '
    {
      assert line[i] == p.name[i - |pre|];
    }
    assert line[|pre| + |p.name|] == ' ';
    IndexOfAt(line, ' ', |pre|, |pre| + |p.name|);
  }

  /** A parsed parameter has neither a space in its name nor in its value. */
  lemma ParsedHasNoSpace(data: string)
    ensures Parse(data).Success? ==> ' ' !in Parse(data).value.name && ' ' !in Parse(data).value.value
  {
    var fields := Split(data, '=');
    var rhs := if |fields| >= 2 then fields[1] else "";
    NameHasNoSpace(fields[0]);
    if Region(rhs).Success? {
      ValueHasNoSpace(Region(rhs).value);
    }
  }

  /** Two lines that parse print the same text only when they parse to the same parameter. */
  lemma ParsedPrintInjective(a: string, b: string)
    requires Parse(a).Success? && Parse(b).Success?
    requires Print(Parse(a).value) == Print(Parse(b).value)
    ensures Parse(a).value == Parse(b).value
  {
    ParsedHasNoSpace(a);
    ParsedHasNoSpace(b);
    PrintInjective(Parse(a).value, Parse(b).value);
  }
}
