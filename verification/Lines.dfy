/** Text read line by line, as a scanner over a log file does. */
module Lines {

  type Text = string

  /** bufio.Scanner: `cur` is the line read so far. */
  function Scan(cur: Text, text: Text): seq<Text>
    decreases |text|
  {
    if text == [] then (if cur == [] then [] else [cur])
    else if text[0] == '\n' then [cur] + Scan([], text[1..])
    else Scan(cur + [text[0]], text[1..])
  }

  lemma {:induction false} ScanLine(cur: Text, line: Text, rest: Text)
    requires '\n' !in line
    ensures Scan(cur, line + "\n" + rest) == [cur + line] + Scan([], rest)
    decreases |line|
  {
    var text := line + "\n" + rest;
    if line == [] {
      assert text[1..] == rest && cur + line == cur;
    } else {
      assert text[0] == line[0] && text[1..] == line[1..] + "\n" + rest;
      ScanLine(cur + [line[0]], line[1..], rest);
      assert cur + [line[0]] + line[1..] == cur + line;
    }
  }

  lemma {:induction false} ScanLast(cur: Text, text: Text)
    requires '\n' !in text
    ensures Scan(cur, text) == if cur + text == [] then [] else [cur + text]
    decreases |text|
  {
    if text != [] {
      ScanLast(cur + [text[0]], text[1..]);
      assert cur + [text[0]] + text[1..] == cur + text;
    } else {
      assert cur + text == cur;
    }
  }
}
