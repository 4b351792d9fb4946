/**
  The transcript styling policy: every rendered line is an ordered list of (text, style) segments.
  The font, the bold trait and the blue colour of the chat view are reduced to three styles.
 */
module ChatLines {

  datatype Style = Plain | Bold | Blue

  datatype Segment = Segment(text: string, style: Style)

  type Line = seq<Segment>

  /** The characters of a line, in order, whatever their style. */
  function Text(line: Line): string {
    if line == [] then [] else line[0].text + Text(line[1..])
  }

  /** The characters of a line that carry style `st`, in order. */
  function TextIn(line: Line, st: Style): string {
    if line == [] then [] else Part(line[0], st) + TextIn(line[1..], st)
  }

  /** The text of a segment if it carries style `st`. */
  function Part(seg: Segment, st: Style): string {
    if seg.style == st then seg.text else []
  }

  /** A line that starts on a fresh visual line: its first segment is plain and begins with a line break. */
  predicate StartsOwnLine(line: Line) {
    |line| > 0 && line[0].style == Plain && |line[0].text| > 0 && line[0].text[0] == '\n'
  }

  /** The local echo of a raw command: `"\n"` plain, then `"\tSENT: "` and the command in blue. */
  function RawLine(raw: string): (line: Line)
    ensures StartsOwnLine(line)
    ensures Text(line) == "\n\tSENT: " + raw
    ensures TextIn(line, Blue) == "\tSENT: " + raw && TextIn(line, Bold) == []
  {
    var line := [Segment("\n", Plain), Segment("\tSENT: ", Blue), Segment(raw, Blue)];
    Unfold3(line, Blue);
    Unfold3(line, Bold);
    line
  }

  /** A channel message, sent or received: `"\n"` plain, the nick and `": "` in bold, the message plain. */
  function MessageLine(nick: string, message: string): (line: Line)
    ensures StartsOwnLine(line)
    ensures Text(line) == "\n" + nick + ": " + message
    ensures TextIn(line, Bold) == nick + ": " && TextIn(line, Plain) == "\n" + message
    ensures TextIn(line, Blue) == []
  {
    var line := [Segment("\n", Plain), Segment(nick, Bold), Segment(": ", Bold), Segment(message, Plain)];
    Unfold4(line, Plain);
    Unfold4(line, Bold);
    Unfold4(line, Blue);
    line
  }

  /** A channel action: `"\n\t *"` plain, the nick and a space in bold, the action plain. */
  function ActionLine(nick: string, action: string): (line: Line)
    ensures StartsOwnLine(line)
    ensures Text(line) == "\n\t *" + nick + " " + action
    ensures TextIn(line, Bold) == nick + " " && TextIn(line, Plain) == "\n\t *" + action
    ensures TextIn(line, Blue) == []
  {
    var line := [Segment("\n\t *", Plain), Segment(nick, Bold), Segment(" ", Bold), Segment(action, Plain)];
    Unfold4(line, Plain);
    Unfold4(line, Bold);
    Unfold4(line, Blue);
    line
  }

  lemma Unfold3(line: Line, st: Style)
    requires |line| == 3
    ensures Text(line) == line[0].text + (line[1].text + line[2].text)
    ensures TextIn(line, st) == Part(line[0], st) + (Part(line[1], st) + Part(line[2], st))
  {
    var r1 := line[1..];
    var r2 := r1[1..];
    assert r2[1..] == [];
    assert r2[0] == line[2] && r1[0] == line[1];
    assert Text(r2) == line[2].text + [];
    assert TextIn(r2, st) == Part(line[2], st) + [];
  }

  lemma Unfold4(line: Line, st: Style)
    requires |line| == 4
    ensures Text(line) == line[0].text + (line[1].text + (line[2].text + line[3].text))
    ensures TextIn(line, st) == Part(line[0], st) + (Part(line[1], st) + (Part(line[2], st) + Part(line[3], st)))
  {
    var rest := line[1..];
    Unfold3(rest, st);
    assert rest[0] == line[1] && rest[1] == line[2] && rest[2] == line[3];
  }

}
