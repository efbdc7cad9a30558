/**
 * The reminder mail: a fixed HTML template with the item substituted for its
 * placeholder, sent from the project's fixed address. The transport is a
 * parameter; a failed send is caught and logged, so the send never fails
 * towards its caller.
 */
module Email {
  import opened Wrappers

  const Sender := "ogrelistproject@gmail.com"

  const Placeholder := "{{reminderItem}}"

  /** The template up to the placeholder, line by line. */
  const HeadLines: seq<string> := [
    "\n",
    "  <html lang=\"en\">\n",
    "  <head>\n",
    "    <title>Reminder</title>\n",
    "  </head>\n",
    "  <body>\n",
    "    <p>Hello!</p>\n",
    "    <p>This is a reminder for: "]

  const TemplateHead := Concat(HeadLines)

  /** The lines of a text joined in order. */
  function Concat(lines: seq<string>): string
  {
    if lines == [] then "" else Concat(lines[..|lines| - 1]) + lines[|lines| - 1]
  }

  /** A character in none of the lines is in none of the joined text. */
  lemma {:induction false} NotInConcat(c: char, lines: seq<string>)
    requires forall i :: 0 <= i < |lines| ==> c !in lines[i]
    ensures c !in Concat(lines)
  {
    if lines != [] {
      NotInConcat(c, lines[..|lines| - 1]);
    }
  }

  /** The template after the placeholder. */
  const TemplateTail := "</p>\n    <p>Thank you,</p>\n    <p>Your Ogre List Team</p>\n  </body>\n  </html>\n"

  /** baseEmailTemplate: one placeholder between the two fixed parts. */
  function Template(): string
  {
    TemplateHead + Placeholder + TemplateTail
  }

  /** Whether `pat` occurs in `s` at position i. */
  predicate OccursAt(s: string, pat: string, i: nat)
  {
    i + |pat| <= |s| && s[i..i + |pat|] == pat
  }

  /** The position of the first occurrence of `pat` in `s`, if any. */
  function IndexOf(s: string, pat: string): (r: Option<nat>)
    decreases |s|
    ensures r.Some? ==> OccursAt(s, pat, r.value)
    ensures r.Some? ==> forall i :: 0 <= i < r.value ==> !OccursAt(s, pat, i)
    ensures r.None? ==> forall i :: 0 <= i ==> !OccursAt(s, pat, i)
  {
    if |s| < |pat| then None
    else if s[..|pat|] == pat then Some(0)
    else match IndexOf(s[1..], pat)
      case None =>
        assert forall i :: 1 <= i ==> (OccursAt(s, pat, i) <==> OccursAt(s[1..], pat, i - 1));
        None
      case Some(j) =>
        assert forall i :: 1 <= i ==> (OccursAt(s, pat, i) <==> OccursAt(s[1..], pat, i - 1));
        Some(j + 1)
  }

  /** String.prototype.replace with a string pattern: the first occurrence of
      `pat` is replaced by `rep`; without an occurrence the text is unchanged. */
  function ReplaceFirst(s: string, pat: string, rep: string): (r: string)
    ensures IndexOf(s, pat).None? ==> r == s
  {
    match IndexOf(s, pat)
    case None => s
    case Some(i) => s[..i] + rep + s[i + |pat|..]
  }

  /** With `pat` right after a prefix `a` that does not hold its first
      character, the first occurrence of `pat` in a + pat + b is at |a|. */
  lemma FirstAfter(a: string, pat: string, b: string)
    requires |pat| > 0 && pat[0] !in a
    ensures IndexOf(a + pat + b, pat) == Some(|a|)
  {
    var s := a + pat + b;
    assert s[|a|..|a| + |pat|] == pat;
    assert OccursAt(s, pat, |a|);
    forall i | 0 <= i < |a| ensures !OccursAt(s, pat, i) {
      assert s[i] == a[i];
    }
  }

  /** Replacing the placeholder at |a| leaves the rest of the text unchanged. */
  lemma ReplaceAfter(a: string, pat: string, b: string, rep: string)
    requires |pat| > 0 && pat[0] !in a
    ensures ReplaceFirst(a + pat + b, pat, rep) == a + rep + b
  {
    FirstAfter(a, pat, b);
    var s := a + pat + b;
    assert s[..|a|] == a;
    assert s[|a| + |pat|..] == b;
  }

  lemma NoBraceInLine(i: nat)
    requires i < |HeadLines|
    ensures '{' !in HeadLines[i]
  {
    match i
    case 0 => case 1 => case 2 => case 3 => case 4 => case 5 => case 6 => case 7 =>
  }

  lemma HeadHasNoBrace()
    ensures '{' !in TemplateHead
  {
    forall i | 0 <= i < |HeadLines| ensures '{' !in HeadLines[i] {
      NoBraceInLine(i);
    }
    NotInConcat('{', HeadLines);
  }

  /** The HTML body of the reminder for `item`. */
  function Render(item: string): string
  {
    ReplaceFirst(Template(), Placeholder, item)
  }

  /** The template holds the placeholder once before any other '{', so the
      body is the fixed text around the item, with nothing else changed. */
  lemma RenderFills(item: string)
    ensures Render(item) == TemplateHead + item + TemplateTail
  {
    assert Placeholder[0] == '{';
    HeadHasNoBrace();
    ReplaceAfter(TemplateHead, Placeholder, TemplateTail, item);
  }

  /** The mail options handed to the transport. */
  datatype Mail = Mail(from: string, to: string, subject: string, html: string)

  /** One call of sendReminderEmail: the mail it built and whether the
      transport accepted it. */
  datatype Sent = Sent(mail: Mail, delivered: bool)

  /** sendReminderEmail: builds the mail from the fixed sender to `to` with the
      subject unchanged and the rendered body, and hands it to the transport.
      A transport failure is caught and logged, so the call always returns. */
  function SendReminderEmail(to: string, subject: string, item: string, transport: Mail -> bool): (r: Sent)
    ensures r.mail.from == Sender && r.mail.to == to && r.mail.subject == subject
    ensures r.mail.html == TemplateHead + item + TemplateTail
    ensures r.delivered == transport(r.mail)
  {
    RenderFills(item);
    var mail := Mail(Sender, to, subject, Render(item));
    Sent(mail, transport(mail))
  }
}
