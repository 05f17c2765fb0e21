/**
 * The text of a mirror file and the string surgery that import performs on
 * it before handing it to `JSON.parse`: every line terminator becomes ", ",
 * the last two characters are cut, and the result is wrapped in "[ " and " ]".
 *
 * Serialisation (`JSON.stringify`) is a parameter: any function that is
 * injective, never yields the empty string and never yields a line break.
 */
module MirrorText {
  import opened Records

  /** What is assumed of `JSON.stringify` on records. */
  ghost predicate IsSerializer(ser: Record -> string)
  {
    && (forall r :: '\n' !in ser(r) && ser(r) != "")
    && (forall r1, r2 :: ser(r1) == ser(r2) ==> r1 == r2)
  }

  /** The file export leaves behind: one `JSON.stringify(r) + '\n'` per record. */
  function FileText(ser: Record -> string, rs: seq<Record>): string
  {
    if rs == [] then "" else ser(rs[0]) + "\n" + FileText(ser, rs[1..])
  }

  /** The serialisations of the records, in order. */
  function SerializeAll(ser: Record -> string, rs: seq<Record>): (parts: seq<string>)
    ensures |parts| == |rs|
    ensures forall i :: 0 <= i < |rs| ==> parts[i] == ser(rs[i])
  {
    if rs == [] then [] else [ser(rs[0])] + SerializeAll(ser, rs[1..])
  }

  /** `parts.join(sep)` */
  function Join(parts: seq<string>, sep: string): string
  {
    if |parts| == 0 then ""
    else if |parts| == 1 then parts[0]
    else parts[0] + sep + Join(parts[1..], sep)
  }

  /** The text `JSON.parse` receives for an array of the given encodings. */
  function JsonArray(parts: seq<string>): string
  {
    "[ " + Join(parts, ", ") + " ]"
  }

  /** `s.replace(/\n/gi, ', ')` */
  function ReplaceNewlines(s: string): string
  {
    if s == [] then []
    else (if s[0] == '\n' then ", " else [s[0]]) + ReplaceNewlines(s[1..])
  }

  /** `s.slice(0, -2)`: a negative end counts from the length and is clamped at 0. */
  function DropLastTwo(s: string): string
  {
    s[..if |s| < 2 then 0 else |s| - 2]
  }

  /** The buffer import builds from the file's text. */
  function Reconstruct(text: string): string
  {
    DropLastTwo(ReplaceNewlines(text))
  }

  lemma {:induction false} ReplaceNewlinesAppend(a: string, b: string)
    ensures ReplaceNewlines(a + b) == ReplaceNewlines(a) + ReplaceNewlines(b)
  {
    if a != [] {
      var c := if a[0] == '\n' then ", " else [a[0]];
      calc {
        ReplaceNewlines(a + b);
        { assert (a + b)[0] == a[0] && (a + b)[1..] == a[1..] + b; }
        c + ReplaceNewlines(a[1..] + b);
        { ReplaceNewlinesAppend(a[1..], b); }
        c + (ReplaceNewlines(a[1..]) + ReplaceNewlines(b));
        ReplaceNewlines(a) + ReplaceNewlines(b);
      }
    } else {
      assert a + b == b;
    }
  }

  lemma {:induction false} ReplaceNewlinesFree(s: string)
    requires '\n' !in s
    ensures ReplaceNewlines(s) == s
  {
    if s != [] {
      ReplaceNewlinesFree(s[1..]);
    }
  }

  /** Each terminator of the file text turns into a ", " after the record it ends. */
  lemma {:induction false} ReplaceFileText(ser: Record -> string, rs: seq<Record>)
    requires forall r :: '\n' !in ser(r)
    ensures rs == [] ==> ReplaceNewlines(FileText(ser, rs)) == ""
    ensures rs != [] ==> ReplaceNewlines(FileText(ser, rs)) == Join(SerializeAll(ser, rs), ", ") + ", "
  {
    if rs != [] {
      var head := ser(rs[0]);
      var rest := FileText(ser, rs[1..]);
      ReplaceNewlinesAppend(head + "\n", rest);
      ReplaceNewlinesAppend(head, "\n");
      ReplaceNewlinesFree(head);
      ReplaceFileText(ser, rs[1..]);
      assert SerializeAll(ser, rs)[1..] == SerializeAll(ser, rs[1..]);
    }
  }

  /**
   * The buffer round trip: the reconstructed buffer is exactly the records'
   * encodings joined by ", ", so `JSON.parse` receives the JSON array of the
   * records that export wrote.
   */
  lemma ReconstructFileText(ser: Record -> string, rs: seq<Record>)
    requires forall r :: '\n' !in ser(r)
    ensures Reconstruct(FileText(ser, rs)) == Join(SerializeAll(ser, rs), ", ")
    ensures "[ " + Reconstruct(FileText(ser, rs)) + " ]" == JsonArray(SerializeAll(ser, rs))
  {
    ReplaceFileText(ser, rs);
    if rs != [] {
      var j := Join(SerializeAll(ser, rs), ", ");
      assert DropLastTwo(j + ", ") == j;
    }
  }

  /** An empty file and a file holding one bare line break both give an empty buffer. */
  lemma ReconstructBlank()
    ensures Reconstruct("") == ""
    ensures Reconstruct("\n") == ""
  {
    assert ReplaceNewlines("\n") == ", ";
  }

  lemma {:induction false} JoinNonEmpty(parts: seq<string>, sep: string)
    requires |parts| > 0 && parts[0] != ""
    ensures |Join(parts, sep)| >= |parts[0]| > 0
  {
  }

  /** Import patches something exactly when the file holds at least one record. */
  lemma BufferEmptyIff(ser: Record -> string, rs: seq<Record>)
    requires IsSerializer(ser)
    ensures |Reconstruct(FileText(ser, rs))| == 0 <==> rs == []
  {
    ReconstructFileText(ser, rs);
    if rs != [] {
      JoinNonEmpty(SerializeAll(ser, rs), ", ");
    }
  }

  /** The first line break of a line followed by more text ends that line. */
  lemma FirstLineBreak(line: string, rest: string)
    requires '\n' !in line
    ensures (line + "\n" + rest)[|line|] == '\n'
    ensures forall k :: 0 <= k < |line| ==> (line + "\n" + rest)[k] != '\n'
  {
    assert forall k :: 0 <= k < |line| ==> (line + "\n" + rest)[k] == line[k];
  }

  /**
   * The text of a mirror file determines the records it holds: reading a
   * file back can only yield what was written.
   */
  lemma {:induction false} FileTextInjective(ser: Record -> string, rs1: seq<Record>, rs2: seq<Record>)
    requires IsSerializer(ser)
    requires FileText(ser, rs1) == FileText(ser, rs2)
    ensures rs1 == rs2
  {
    if rs1 != [] && rs2 != [] {
      var a, b := ser(rs1[0]), ser(rs2[0]);
      var t := FileText(ser, rs1);
      assert t == a + "\n" + FileText(ser, rs1[1..]);
      assert t == b + "\n" + FileText(ser, rs2[1..]);
      FirstLineBreak(a, FileText(ser, rs1[1..]));
      FirstLineBreak(b, FileText(ser, rs2[1..]));
      assert a == t[..|a|] == b;
      assert FileText(ser, rs1[1..]) == t[|a| + 1..] == FileText(ser, rs2[1..]);
      FileTextInjective(ser, rs1[1..], rs2[1..]);
    }
  }

  /** Joining newline-free lines with '\n' and replacing the breaks gives the ", " join. */
  lemma {:induction false} ReplaceJoinedLines(parts: seq<string>)
    requires forall i :: 0 <= i < |parts| ==> '\n' !in parts[i]
    ensures ReplaceNewlines(Join(parts, "\n")) == Join(parts, ", ")
  {
    if |parts| == 1 {
      ReplaceNewlinesFree(parts[0]);
    } else if |parts| > 1 {
      ReplaceNewlinesAppend(parts[0] + "\n", Join(parts[1..], "\n"));
      ReplaceNewlinesAppend(parts[0], "\n");
      ReplaceNewlinesFree(parts[0]);
      ReplaceJoinedLines(parts[1..]);
    }
  }

  /**
   * A file whose last line lacks its terminator is not read back intact: the
   * cut meant for the final ", " removes the last two characters of the last
   * record instead.
   */
  lemma UnterminatedLastLine(ser: Record -> string, rs: seq<Record>)
    requires forall r :: '\n' !in ser(r)
    requires rs != []
    ensures var j := Join(SerializeAll(ser, rs), ", ");
      Reconstruct(Join(SerializeAll(ser, rs), "\n")) == j[..if |j| < 2 then 0 else |j| - 2]
  {
    ReplaceJoinedLines(SerializeAll(ser, rs));
  }
}
