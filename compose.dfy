/**
 * Message composition inside the `/mail-delivered` handler: the subject,
 * the fixed body, the envelope sender taken from EMAIL_FROM, and the
 * message text with its header block, framed with CRLF as section 2.1 of
 * RFC 5322 lays out (header fields, an empty line, the body). The
 * formatted time is an input: the clock and the time-zone lookup are not
 * part of this model.
 */
module Compose {
  import opened Strings

  const SubjectPrefix: string := "Mail Delivered - "

  /**
   * The fixed notification text: a greeting, a note on where it comes
   * from, a signature, blank lines between. Long lines are written as two
   * literals so that the absence of CR can be checked piece by piece.
   */
  const Body: string := Greeting + "\n\n" + Notice + "\n\n" + Signature

  const Greeting: string := "You've got mail in your mailbox!"
  const Notice: string := "This notification was sent from " + "your home mailbox system."
  const Signature: string := "Best regards," + "\n" + "Your Mailbox"

  /** The subject: the fixed prefix followed by the formatted time. */
  function Subject(timestamp: string): (subject: string)
    ensures |subject| == |SubjectPrefix| + |timestamp|
    ensures subject[..|SubjectPrefix|] == SubjectPrefix
    ensures subject[|SubjectPrefix|..] == timestamp
  {
    SubjectPrefix + timestamp
  }

  /**
   * The envelope sender: the piece of `from` after its first '<' and
   * before the next '<' (or the end), with one trailing '>' removed; `from`
   * itself when it has no '<'.
   */
  function SenderEmail(from: string): string
  {
    var fromParts := Split(from, '<');
    if |fromParts| > 1 then TrimSuffix(fromParts[1], '>') else from
  }

  /** A bare address, with no '<', is its own envelope sender. */
  lemma {:induction false} SenderOfBareAddress(from: string)
    requires '<' !in from
    ensures SenderEmail(from) == from
  {
    SplitWithoutSeparator(from, '<');
  }

  /**
   * With a '<' at index i and the next '<' (or the end) at index j, the
   * envelope sender is from[i + 1..j] less one trailing '>'.
   */
  lemma {:induction false} SenderBetweenBrackets(from: string, i: nat, j: nat)
    requires i < j <= |from| && from[i] == '<'
    requires '<' !in from[..i] && '<' !in from[i + 1..j]
    requires j == |from| || from[j] == '<'
    ensures SenderEmail(from) == TrimSuffix(from[i + 1..j], '>')
  {
    var rest := from[i + 1..];
    SenderAfterFirstBracket(from, i);
    assert rest[..j - i - 1] == from[i + 1..j];
    SplitFirstPiece(rest, '<', j - i - 1);
  }

  /** The envelope sender comes from the first piece after the first '<'. */
  lemma {:induction false} SenderAfterFirstBracket(from: string, i: nat)
    requires i < |from| && from[i] == '<' && '<' !in from[..i]
    ensures SenderEmail(from) == TrimSuffix(Split(from[i + 1..], '<')[0], '>')
  {
    assert from == from[..i] + ['<'] + from[i + 1..];
    SplitAtFirst(from[..i], '<', from[i + 1..]);
  }

  /**
   * For `Display Name <addr>` the envelope sender is `addr`, as long as
   * neither part contains '<'.
   */
  lemma {:induction false} SenderOfDisplayAddress(name: string, addr: string)
    requires '<' !in name && '<' !in addr
    ensures SenderEmail(name + "<" + addr + ">") == addr
  {
    var from := name + "<" + addr + ">";
    var i, j := |name|, |from|;
    assert from[..i] == name;
    assert from[i + 1..j] == addr + ">";
    assert '<' !in addr + ">";
    SenderBetweenBrackets(from, i, j);
  }

  /** A display-name address: the envelope sender is the text between the brackets. */
  lemma {:induction false} SenderOfJaneDoe()
    ensures SenderEmail("Jane Doe <jane@example.com>") == "jane@example.com"
  {
    var name, addr := "Jane Doe ", "jane@example.com";
    assert '<' !in name && '<' !in addr;
    SenderOfDisplayAddress(name, addr);
    JaneDoeParts();
  }

  /** The example address, assembled from its parts. */
  lemma {:induction false} JaneDoeParts()
    ensures "Jane Doe " + "<" + "jane@example.com" + ">" == "Jane Doe <jane@example.com>"
  {
  }

  /**
   * Text after the closing '>' stays in the envelope sender: only a '>'
   * at the very end is removed.
   */
  lemma {:induction false} SenderKeepsTextAfterBracket(name: string, addr: string, tail: string)
    requires '<' !in name && '<' !in addr && '<' !in tail
    requires tail != [] && tail[|tail| - 1] != '>'
    ensures SenderEmail(name + "<" + addr + ">" + tail) == addr + ">" + tail
  {
    var from := name + "<" + addr + ">" + tail;
    var i, j := |name|, |from|;
    assert from[..i] == name;
    assert from[i + 1..j] == addr + ">" + tail;
    assert '<' !in addr + ">" + tail;
    SenderBetweenBrackets(from, i, j);
  }

  /** The header fields, in order, without their CRLF terminators. */
  function HeaderFields(from: string, to: seq<string>, timestamp: string): seq<string>
  {
    [ "From: " + from,
      "To: " + Join(to, ','),
      "Subject: " + Subject(timestamp),
      "MIME-Version: 1.0",
      "Content-Type: text/plain; charset=UTF-8" ]
  }

  /** The message text: header block, empty line, body, final CRLF. */
  function Message(from: string, to: seq<string>, timestamp: string): string
  {
    "From: " + from + "\r\n" +
    "To: " + Join(to, ',') + "\r\n" +
    "Subject: " + Subject(timestamp) + "\r\n" +
    "MIME-Version: 1.0\r\n" +
    "Content-Type: text/plain; charset=UTF-8\r\n" +
    "\r\n" +
    Body + "\r\n"
  }

  /** No recipient and no piece of the header values holds a carriage return. */
  predicate NoCarriageReturn(from: string, to: seq<string>, timestamp: string)
  {
    && '\r' !in from
    && '\r' !in timestamp
    && forall i :: 0 <= i < |to| ==> '\r' !in to[i]
  }

  lemma {:induction false} JoinWithoutCR(parts: seq<string>, sep: char)
    requires sep != '\r'
    requires forall i :: 0 <= i < |parts| ==> '\r' !in parts[i]
    ensures '\r' !in Join(parts, sep)
  {
    if |parts| > 1 {
      JoinWithoutCR(parts[1..], sep);
      assert Join(parts, sep) == parts[0] + [sep] + Join(parts[1..], sep);
    }
  }

  /** The fixed body holds no carriage return. */
  lemma {:induction false} BodyHasNoCR()
    ensures '\r' !in Body
  {
    GreetingHasNoCR();
    NoticeHasNoCR();
    SignatureHasNoCR();
    NoCRInConcat(Greeting, "\n\n");
    NoCRInConcat(Greeting + "\n\n", Notice);
    NoCRInConcat(Greeting + "\n\n" + Notice, "\n\n");
    NoCRInConcat(Greeting + "\n\n" + Notice + "\n\n", Signature);
  }

  lemma {:induction false} GreetingHasNoCR()
    ensures '\r' !in Greeting
  {
  }

  lemma {:induction false} NoticeHasNoCR()
    ensures '\r' !in Notice
  {
  }

  lemma {:induction false} SignatureHasNoCR()
    ensures '\r' !in Signature
  {
  }

  lemma {:induction false} NoCRInConcat(a: string, b: string)
    requires '\r' !in a && '\r' !in b
    ensures '\r' !in a + b
  {
  }

  /** Seven lines framed one after the other. */
  lemma {:induction false} FramedSeven(l0: string, l1: string, l2: string, l3: string, l4: string, l5: string, l6: string)
    ensures Framed([l0, l1, l2, l3, l4, l5, l6])
      == (l0 + CRLF) + (l1 + CRLF) + (l2 + CRLF) + (l3 + CRLF) + (l4 + CRLF) + (l5 + CRLF) + (l6 + CRLF)
  {
    var lines := [l0, l1, l2, l3, l4, l5, l6];
    assert lines[7..] == [];
    FramedFrom(lines, 6);
    FramedFrom(lines, 5);
    FramedFrom(lines, 4);
    FramedFrom(lines, 3);
    FramedFrom(lines, 2);
    FramedFrom(lines, 1);
    FramedFrom(lines, 0);
    assert lines[0..] == lines;
  }

  /** The message is its header fields, an empty line and the body, each CRLF-terminated. */
  lemma {:induction false} MessageIsFramed(from: string, to: seq<string>, timestamp: string)
    ensures Message(from, to, timestamp) == Framed(HeaderFields(from, to, timestamp) + ["", Body])
  {
    var h := HeaderFields(from, to, timestamp);
    var join, subject := Join(to, ','), Subject(timestamp);
    var m0 := "From: " + from + "\r\n";
    assert m0 == h[0] + CRLF;
    var m1 := m0 + "To: " + join + "\r\n";
    assert m1 == m0 + (h[1] + CRLF);
    var m2 := m1 + "Subject: " + subject + "\r\n";
    assert m2 == m1 + (h[2] + CRLF);
    var m3 := m2 + "MIME-Version: 1.0\r\n";
    assert m3 == m2 + (h[3] + CRLF);
    var m4 := m3 + "Content-Type: text/plain; charset=UTF-8\r\n";
    assert m4 == m3 + (h[4] + CRLF);
    var m5 := m4 + "\r\n";
    assert m5 == m4 + ("" + CRLF);
    var m6 := m5 + Body + "\r\n";
    assert m6 == m5 + (Body + CRLF);
    assert Message(from, to, timestamp) == m6;
    FramedSeven(h[0], h[1], h[2], h[3], h[4], "", Body);
    assert h + ["", Body] == [h[0], h[1], h[2], h[3], h[4], "", Body];
  }

  /**
   * Read as CRLF-terminated lines, the message is exactly the five header
   * fields, one empty line, the body, and nothing after the final CRLF. In
   * particular the first empty line, which ends the header section, is the
   * sixth.
   */
  lemma {:induction false} MessageLines(from: string, to: seq<string>, timestamp: string)
    requires NoCarriageReturn(from, to, timestamp)
    ensures Lines(Message(from, to, timestamp)) == HeaderFields(from, to, timestamp) + ["", Body, ""]
    ensures forall k :: 0 <= k < 5 ==> HeaderFields(from, to, timestamp)[k] != ""
  {
    var h := HeaderFields(from, to, timestamp);
    var lines := h + ["", Body];
    MessageLinesHaveNoCR(from, to, timestamp);
    MessageIsFramed(from, to, timestamp);
    LinesOfFramed(lines, "");
    assert Framed(lines) + "" == Framed(lines);
    assert Lines("") == [""];
    assert lines + [""] == h + ["", Body, ""];
    forall k | 0 <= k < 5 ensures h[k] != "" {
      assert |h[k]| > 0;
    }
  }

  /** None of the lines the message frames holds a carriage return. */
  lemma {:induction false} MessageLinesHaveNoCR(from: string, to: seq<string>, timestamp: string)
    requires NoCarriageReturn(from, to, timestamp)
    ensures var lines := HeaderFields(from, to, timestamp) + ["", Body];
      forall k :: 0 <= k < |lines| ==> '\r' !in lines[k]
  {
    var h := HeaderFields(from, to, timestamp);
    var lines := h + ["", Body];
    JoinWithoutCR(to, ',');
    assert '\r' !in Subject(timestamp) by {
      forall k | 0 <= k < |Subject(timestamp)| ensures Subject(timestamp)[k] != '\r' {
        if k >= |SubjectPrefix| { assert Subject(timestamp)[k] == timestamp[k - |SubjectPrefix|]; }
      }
    }
    BodyHasNoCR();
    forall k | 0 <= k < |lines| ensures '\r' !in lines[k] {
      if k < 5 { NoCRInField(h[k], k, from, to, timestamp); }
    }
  }

  lemma {:induction false} NoCRInField(field: string, k: nat, from: string, to: seq<string>, timestamp: string)
    requires k < 5 && field == HeaderFields(from, to, timestamp)[k]
    requires NoCarriageReturn(from, to, timestamp)
    requires '\r' !in Join(to, ',') && '\r' !in Subject(timestamp)
    ensures '\r' !in field
  {
  }

  /**
   * The To field lists the recipients joined with ','; splitting it on ','
   * gives them back when none contains a comma.
   */
  lemma {:induction false} ToFieldRecoversRecipients(from: string, to: seq<string>, timestamp: string)
    requires |to| >= 1
    requires forall i :: 0 <= i < |to| ==> ',' !in to[i]
    ensures var to' := HeaderFields(from, to, timestamp)[1];
      to'[..4] == "To: " && Split(to'[4..], ',') == to
  {
    var field := HeaderFields(from, to, timestamp)[1];
    assert field[4..] == Join(to, ',');
    SplitJoin(to, ',');
  }

  /**
   * Two messages for the same configuration differ at most in the Subject
   * line: the From and To lines, the fixed headers and the body are the
   * same whatever the formatted time.
   */
  lemma {:induction false} OnlySubjectDependsOnTime(from: string, to: seq<string>, t1: string, t2: string)
    requires NoCarriageReturn(from, to, t1) && NoCarriageReturn(from, to, t2)
    ensures var l1, l2 := Lines(Message(from, to, t1)), Lines(Message(from, to, t2));
      |l1| == |l2| == 8 && forall k :: 0 <= k < 8 && k != 2 ==> l1[k] == l2[k]
  {
    MessageLines(from, to, t1);
    MessageLines(from, to, t2);
  }

  /** The message is fixed text, then the formatted time, then fixed text that does not depend on the time. */
  lemma MessageAroundTime(from: string, to: seq<string>, timestamp: string)
    ensures var before := "From: " + from + "\r\n" + "To: " + Join(to, ',') + "\r\n" + "Subject: " + SubjectPrefix;
      var after := "\r\n" + "MIME-Version: 1.0\r\n" + "Content-Type: text/plain; charset=UTF-8\r\n" + "\r\n" + Body + "\r\n";
      Message(from, to, timestamp) == before + timestamp + after
  {
  }

  /** The Subject line does differ: distinct formatted times give distinct messages. */
  lemma {:induction false} MessageDeterminesTime(from: string, to: seq<string>, t1: string, t2: string)
    ensures Message(from, to, t1) == Message(from, to, t2) <==> t1 == t2
  {
    if Message(from, to, t1) == Message(from, to, t2) {
      var before := "From: " + from + "\r\n" + "To: " + Join(to, ',') + "\r\n" + "Subject: " + SubjectPrefix;
      var after := "\r\n" + "MIME-Version: 1.0\r\n" + "Content-Type: text/plain; charset=UTF-8\r\n" + "\r\n" + Body + "\r\n";
      MessageAroundTime(from, to, t1);
      MessageAroundTime(from, to, t2);
      var m := before + t1 + after;
      assert m == before + t2 + after;
      assert |t1| == |t2|;
      assert t1 == m[|before|..|before| + |t1|];
      assert t2 == m[|before|..|before| + |t2|];
    }
  }
}
