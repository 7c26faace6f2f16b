// The text a sender signs for a transfer: eight lines, of which the last seven carry
// one declared field each. Read back, the text says what was declared.

module TransferSignature {
  import opened Basics
  import opened Text

  datatype Declaration = Declaration(transferId: string, senderId: string, receiverId: string, sha256: string,
                                     size: nat, issuedAt: string, nonce: string)

  const HEADER := "UPCE-TRANSFER-SIGNATURE-V1"

  /** createCanonicalTransferPayload of the sender's client. */
  function SigningText(d: Declaration): string {
    HEADER + "\n"
    + "transfer_id=" + d.transferId + "\n"
    + "sender_id=" + d.senderId + "\n"
    + "receiver_id=" + d.receiverId + "\n"
    + "file_sha256=" + d.sha256 + "\n"
    + "file_size=" + Str(d.size) + "\n"
    + "issued_at=" + d.issuedAt + "\n"
    + "nonce=" + d.nonce
  }

  /** No field contains a line break. */
  predicate OneLine(d: Declaration) {
    && '\n' !in d.transferId && '\n' !in d.senderId && '\n' !in d.receiverId && '\n' !in d.sha256
    && '\n' !in d.issuedAt && '\n' !in d.nonce
  }

  // ---- Lines ----

  /** "\n".join(lines). */
  function Join(lines: seq<string>): string
    requires lines != []
  {
    var n := |lines| - 1;
    if n == 0 then lines[0] else Join(lines[..n]) + "\n" + lines[n]
  }

  function Breaks(s: string): nat {
    if s == "" then 0 else Breaks(s[1..]) + if s[0] == '\n' then 1 else 0
  }

  lemma {:induction false} BreaksAppend(s: string, t: string)
    ensures Breaks(s + t) == Breaks(s) + Breaks(t)
  {
    if s == "" {
      assert s + t == t;
    } else {
      assert (s + t)[1..] == s[1..] + t;
      BreaksAppend(s[1..], t);
    }
  }

  lemma {:induction false} NoBreaks(s: string)
    ensures Breaks(s) == 0 <==> '\n' !in s
  {
    if s != "" {
      NoBreaks(s[1..]);
      assert s == [s[0]] + s[1..];
    }
  }

  function BreaksOf(lines: seq<string>): nat {
    if lines == [] then 0 else BreaksOf(lines[..|lines| - 1]) + Breaks(lines[|lines| - 1])
  }

  lemma {:induction false} JoinBreaks(lines: seq<string>)
    requires lines != []
    ensures Breaks(Join(lines)) == BreaksOf(lines) + |lines| - 1
  {
    var n := |lines| - 1;
    if n > 0 {
      JoinBreaks(lines[..n]);
      BreaksAppend(Join(lines[..n]) + "\n", lines[n]);
      BreaksAppend(Join(lines[..n]), "\n");
    } else {
      assert BreaksOf(lines[..0]) == 0;
    }
  }

  lemma LastLine(s: string, last: string, s': string, last': string)
    requires '\n' !in last && '\n' !in last' && s + "\n" + last == s' + "\n" + last'
    ensures s == s' && last == last'
  {
    var t, t' := s + "\n" + last, s' + "\n" + last';
    assert t[|s|] == '\n' && t'[|s'|] == '\n';
    assert forall k :: |s| < k < |t| ==> t[k] == last[k - |s| - 1];
    assert forall k :: |s'| < k < |t'| ==> t'[k] == last'[k - |s'| - 1];
    assert |s| == |s'|;
    assert s == t[..|s|] && s' == t'[..|s|] && last == t[|s| + 1..] && last' == t'[|s| + 1..];
  }

  /** Texts of as many lines without breaks are equal line by line. */
  lemma {:induction false} JoinInjective(a: seq<string>, b: seq<string>)
    requires |a| == |b| > 0 && Join(a) == Join(b) && BreaksOf(a) == BreaksOf(b) == 0
    ensures a == b
  {
    var n := |a| - 1;
    if n > 0 {
      NoBreaks(a[n]);
      NoBreaks(b[n]);
      LastLine(Join(a[..n]), a[n], Join(b[..n]), b[n]);
      JoinInjective(a[..n], b[..n]);
      assert a == a[..n] + [a[n]] && b == b[..n] + [b[n]];
    }
  }

  // ---- Reading the text back ----

  function LinesOf(d: Declaration): (lines: seq<string>)
    ensures |lines| == 8
  {
    ["UPCE-TRANSFER-SIGNATURE-V1", "transfer_id=" + d.transferId, "sender_id=" + d.senderId,
     "receiver_id=" + d.receiverId, "file_sha256=" + d.sha256, "file_size=" + Str(d.size),
     "issued_at=" + d.issuedAt, "nonce=" + d.nonce]
  }

  lemma AddLine(text: string, lines: seq<string>, name: string, field: string)
    requires lines != [] && text == Join(lines)
    ensures text + "\n" + name + field == Join(lines + [name + field])
    ensures BreaksOf(lines + [name + field]) == BreaksOf(lines) + Breaks(name + field)
  {
    var longer := lines + [name + field];
    assert longer[..|lines|] == lines;
    assert text + "\n" + name + field == text + "\n" + (name + field);
  }

  lemma TextIsLines(d: Declaration)
    ensures SigningText(d) == Join(LinesOf(d))
  {
    EightLines(HEADER, "transfer_id=", d.transferId, "sender_id=", d.senderId, "receiver_id=", d.receiverId,
               "file_sha256=", d.sha256, "file_size=", Str(d.size), "issued_at=", d.issuedAt, "nonce=", d.nonce);
  }

  lemma EightLines(header: string, n1: string, f1: string, n2: string, f2: string, n3: string, f3: string, n4: string,
                   f4: string, n5: string, f5: string, n6: string, f6: string, n7: string, f7: string)
    ensures header + "\n" + n1 + f1 + "\n" + n2 + f2 + "\n" + n3 + f3 + "\n" + n4 + f4 + "\n" + n5 + f5 + "\n" + n6 + f6
                + "\n" + n7 + f7 == Join([header, n1 + f1, n2 + f2, n3 + f3, n4 + f4, n5 + f5, n6 + f6, n7 + f7])
    ensures BreaksOf([header, n1 + f1, n2 + f2, n3 + f3, n4 + f4, n5 + f5, n6 + f6, n7 + f7])
        == Breaks(header) + Breaks(n1 + f1) + Breaks(n2 + f2) + Breaks(n3 + f3) + Breaks(n4 + f4) + Breaks(n5 + f5)
           + Breaks(n6 + f6) + Breaks(n7 + f7)
  {
    var l0 := [header];
    assert BreaksOf(l0[..0]) == 0;
    AddLine(header, l0, n1, f1);
    var l1 := l0 + [n1 + f1];
    AddLine(Join(l1), l1, n2, f2);
    var l2 := l1 + [n2 + f2];
    AddLine(Join(l2), l2, n3, f3);
    var l3 := l2 + [n3 + f3];
    AddLine(Join(l3), l3, n4, f4);
    var l4 := l3 + [n4 + f4];
    AddLine(Join(l4), l4, n5, f5);
    var l5 := l4 + [n5 + f5];
    AddLine(Join(l5), l5, n6, f6);
    var l6 := l5 + [n6 + f6];
    AddLine(Join(l6), l6, n7, f7);
    assert l6 + [n7 + f7] == [header, n1 + f1, n2 + f2, n3 + f3, n4 + f4, n5 + f5, n6 + f6, n7 + f7];
  }

  lemma LabelStripped(name: string, a: string, b: string)
    requires name + a == name + b
    ensures a == b
  {
    assert (name + a)[|name|..] == a && (name + b)[|name|..] == b;
  }

  lemma LabelClean(name: string, field: string)
    requires '\n' !in name && '\n' !in field
    ensures Breaks(name + field) == 0
  {
    NoBreaks(name + field);
  }

  lemma EightClean(header: string, n1: string, f1: string, n2: string, f2: string, n3: string, f3: string, n4: string,
                   f4: string, n5: string, f5: string, n6: string, f6: string, n7: string, f7: string)
    requires '\n' !in header && '\n' !in n1 && '\n' !in n2 && '\n' !in n3 && '\n' !in n4 && '\n' !in n5 && '\n' !in n6
        && '\n' !in n7
    requires '\n' !in f1 && '\n' !in f2 && '\n' !in f3 && '\n' !in f4 && '\n' !in f5 && '\n' !in f6 && '\n' !in f7
    ensures BreaksOf([header, n1 + f1, n2 + f2, n3 + f3, n4 + f4, n5 + f5, n6 + f6, n7 + f7]) == 0
  {
    EightLines(header, n1, f1, n2, f2, n3, f3, n4, f4, n5, f5, n6, f6, n7, f7);
    NoBreaks(header);
    LabelClean(n1, f1);
    LabelClean(n2, f2);
    LabelClean(n3, f3);
    LabelClean(n4, f4);
    LabelClean(n5, f5);
    LabelClean(n6, f6);
    LabelClean(n7, f7);
  }

  lemma LinesClean(d: Declaration)
    requires OneLine(d)
    ensures BreaksOf(LinesOf(d)) == 0
  {
    EightClean(HEADER, "transfer_id=", d.transferId, "sender_id=", d.senderId, "receiver_id=", d.receiverId,
               "file_sha256=", d.sha256, "file_size=", Str(d.size), "issued_at=", d.issuedAt, "nonce=", d.nonce);
  }

  lemma SameLines(d: Declaration, d': Declaration)
    requires LinesOf(d) == LinesOf(d')
    ensures d == d'
  {
    var l, l' := LinesOf(d), LinesOf(d');
    assert l[1] == l'[1] && l[2] == l'[2] && l[3] == l'[3] && l[4] == l'[4] && l[5] == l'[5] && l[6] == l'[6]
        && l[7] == l'[7];
    LabelStripped("transfer_id=", d.transferId, d'.transferId);
    LabelStripped("sender_id=", d.senderId, d'.senderId);
    LabelStripped("receiver_id=", d.receiverId, d'.receiverId);
    LabelStripped("file_sha256=", d.sha256, d'.sha256);
    LabelStripped("file_size=", Str(d.size), Str(d'.size));
    LabelStripped("issued_at=", d.issuedAt, d'.issuedAt);
    LabelStripped("nonce=", d.nonce, d'.nonce);
    StrInjective(d.size, d'.size);
  }

  /** A declaration without line breaks is the only one with its text, even among those with line breaks. */
  lemma TextDetermines(d: Declaration, other: Declaration)
    requires OneLine(d) && SigningText(d) == SigningText(other)
    ensures d == other
  {
    TextIsLines(d);
    TextIsLines(other);
    LinesClean(d);
    JoinBreaks(LinesOf(d));
    JoinBreaks(LinesOf(other));
    JoinInjective(LinesOf(d), LinesOf(other));
    SameLines(d, other);
  }
}
