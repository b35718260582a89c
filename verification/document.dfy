/** The Markdown document written for one entry: a front-matter block, the
    body text, a metadata separator and an optional location line. */
module Document {
  import opened Wrappers
  import opened Seqs

  const Opening := "---\ndate: "
  const WeatherKey := "weather: "
  const TagsKey := "tags: "
  const Closing := "locations: \n---\n"
  const MetadataSeparator := "\n\n---\n"

  /** `key value` as a line of its own, or nothing when the value is empty. */
  function OptionalLine(key: string, value: string): string {
    if |value| > 0 then key + value + "\n" else ""
  }

  /** The front-matter block. It always opens with the date line and closes
      with the `locations:` key and the delimiter; a weather line is present
      exactly when the weather is non-empty, and after it a tags line exactly
      when the tags are non-empty. */
  function FrontMatter(date: string, weather: string, tags: string): (r: string)
    ensures Opening + date + "\n" <= r
    ensures |Closing| <= |r| && r[|r| - |Closing|..] == Closing
    ensures |weather| > 0 ==> Opening + date + "\n" + WeatherKey + weather + "\n" <= r
    ensures |weather| == 0 ==> !(Opening + date + "\n" + WeatherKey <= r)
    ensures |tags| > 0 ==> Opening + date + "\n" + OptionalLine(WeatherKey, weather) + TagsKey + tags + "\n" <= r
    ensures |tags| == 0 ==> !(Opening + date + "\n" + OptionalLine(WeatherKey, weather) + TagsKey <= r)
  {
    var head := Opening + date + "\n";
    var r := head + OptionalLine(WeatherKey, weather) + OptionalLine(TagsKey, tags) + Closing;
    var w, t := OptionalLine(WeatherKey, weather), OptionalLine(TagsKey, tags);
    ConcatAssociative(head, w, t);
    ConcatAssociative(head, w + t, Closing);
    assert r == head + (w + t + Closing);
    assert |weather| == 0 ==> !(head + WeatherKey <= r) by {
      if |weather| == 0 {
        var after := OptionalLine(TagsKey, tags) + Closing;
        assert r[|head|..] == after;
        assert after[0] != 'w';
      }
    }
    assert |tags| == 0 ==> !(head + w + TagsKey <= r) by {
      if |tags| == 0 {
        assert r == (head + w) + Closing;
        assert r[|head + w|] == 'l';
      }
    }
    r
  }

  /** Without weather or tags the block is just the date line and the
      closing lines. */
  lemma BareFrontMatter(date: string)
    ensures FrontMatter(date, "", "") == Opening + date + "\n" + Closing
  {
    assert OptionalLine(WeatherKey, "") == "" && OptionalLine(TagsKey, "") == "";
  }

  /** The fields a front-matter block carries. */
  datatype Fields = Fields(date: string, weather: string, tags: string)

  /** A front-matter block read back, and the text that follows it. */
  datatype Parsed = Parsed(fields: Fields, rest: string)

  /** The text up to the first newline, and what follows that newline. */
  function TakeLine(s: string): Option<(string, string)> {
    if |s| == 0 then None
    else if s[0] == '\n' then Some(("", s[1..]))
    else
      match TakeLine(s[1..])
      case None => None
      case Some(p) => Some(([s[0]] + p.0, p.1))
  }

  lemma {:induction false} TakeLineOf(line: string, rest: string)
    requires '\n' !in line
    ensures TakeLine(line + "\n" + rest) == Some((line, rest))
  {
    var s := line + "\n" + rest;
    if |line| == 0 {
      assert s == "\n" + rest;
    } else {
      assert s[0] == line[0];
      assert s[1..] == line[1..] + "\n" + rest;
      TakeLineOf(line[1..], rest);
      assert [line[0]] + line[1..] == line;
    }
  }

  /** Reads an optional `key value` line: absent when the text does not
      start with `key`; refused when the line is unterminated or its value
      empty, since a written block never holds such a line. */
  function ReadOptionalLine(s: string, key: string): Option<(string, string)> {
    if key <= s then
      match TakeLine(s[|key|..])
      case Some(p) => if |p.0| > 0 then Some(p) else None
      case None => None
    else Some(("", s))
  }

  /** Reads a front-matter block at the start of a document. */
  function ParseFrontMatter(s: string): Option<Parsed> {
    if !(Opening <= s) then None
    else
      match TakeLine(s[|Opening|..])
      case None => None
      case Some(dateLine) =>
        match ReadOptionalLine(dateLine.1, WeatherKey)
        case None => None
        case Some(weatherLine) =>
          match ReadOptionalLine(weatherLine.1, TagsKey)
          case None => None
          case Some(tagsLine) =>
            var afterTags := tagsLine.1;
            if Closing <= afterTags then Some(Parsed(Fields(dateLine.0, weatherLine.0, tagsLine.0), afterTags[|Closing|..]))
            else None
  }

  lemma ReadOptionalLineOf(key: string, value: string, rest: string)
    requires '\n' !in value
    requires |value| == 0 ==> !(key <= rest)
    ensures ReadOptionalLine(OptionalLine(key, value) + rest, key) == Some((value, rest))
  {
    if |value| > 0 {
      var s := key + value + "\n" + rest;
      assert s[|key|..] == value + "\n" + rest;
      TakeLineOf(value, rest);
    } else {
      assert OptionalLine(key, value) + rest == rest;
    }
  }

  /** A document starting with a front-matter block, cut at the line it
      starts with. */
  lemma FrontMatterLines(date: string, weather: string, tags: string, rest: string)
    ensures var s := FrontMatter(date, weather, tags) + rest;
            && Opening <= s
            && s[|Opening|..] == date + "\n" + (OptionalLine(WeatherKey, weather) + (OptionalLine(TagsKey, tags) + (Closing + rest)))
  {
    var w, t := OptionalLine(WeatherKey, weather), OptionalLine(TagsKey, tags);
    var head := Opening + date + "\n";
    ConcatAssociative(head + w + t, Closing, rest);
    ConcatAssociative(head + w, t, Closing + rest);
    ConcatAssociative(head, w, t + (Closing + rest));
    var afterDate := w + (t + (Closing + rest));
    ConcatAssociative(Opening + date, "\n", afterDate);
    ConcatAssociative(Opening, date, "\n" + afterDate);
    ConcatAssociative(date, "\n", afterDate);
    assert FrontMatter(date, weather, tags) + rest == Opening + (date + "\n" + afterDate);
  }

  /** Round trip: the front matter of any document can be read back into
      the date, weather and tags it was built from, with the rest of the
      document untouched, provided none of them holds a line break. As the
      reader refuses a `weather:` or `tags:` line with an empty value, the
      weather line comes before the tags line and each is present exactly
      when its value is non-empty. */
  lemma FrontMatterRoundTrip(date: string, weather: string, tags: string, rest: string)
    requires '\n' !in date && '\n' !in weather && '\n' !in tags
    ensures ParseFrontMatter(FrontMatter(date, weather, tags) + rest) == Some(Parsed(Fields(date, weather, tags), rest))
  {
    var tail := Closing + rest;
    var afterWeather := OptionalLine(TagsKey, tags) + tail;
    var afterDate := OptionalLine(WeatherKey, weather) + afterWeather;
    var s := FrontMatter(date, weather, tags) + rest;
    FrontMatterLines(date, weather, tags, rest);
    TakeLineOf(date, afterDate);
    assert ReadOptionalLine(afterWeather, TagsKey) == Some((tags, tail)) by {
      assert tail[0] == 'l';
      ReadOptionalLineOf(TagsKey, tags, tail);
    }
    assert ReadOptionalLine(afterDate, WeatherKey) == Some((weather, afterWeather)) by {
      assert afterWeather[0] == 't' || afterWeather[0] == 'l';
      ReadOptionalLineOf(WeatherKey, weather, afterWeather);
    }
    assert Closing <= tail && tail[|Closing|..] == rest;
  }

  /** A block with an empty `tags:` line is refused, so no written block
      holds one. */
  lemma EmptyTagsLineRefused(date: string, rest: string)
    requires '\n' !in date
    ensures ParseFrontMatter(Opening + date + "\n" + TagsKey + "\n" + rest) == None
  {
    var afterDate := TagsKey + "\n" + rest;
    var s := Opening + date + "\n" + TagsKey + "\n" + rest;
    assert s == Opening + (date + "\n" + afterDate);
    assert s[|Opening|..] == date + "\n" + afterDate;
    TakeLineOf(date, afterDate);
    assert ReadOptionalLine(afterDate, WeatherKey) == Some(("", afterDate)) by {
      assert afterDate[0] == 't';
    }
    assert afterDate[|TagsKey|..] == "\n" + rest;
    TakeLineOf("", rest);
  }

  /** The list of fragments an entry's document is written from: the front
      matter, the body unless the text stage raised, the separator, and the
      location unless it is empty. */
  function Fragments(frontMatter: string, body: Option<string>, location: string): (r: seq<string>)
    ensures |r| >= 2 && r[0] == frontMatter
    ensures body.Some? ==> r[1] == body.value
    ensures r[|r| - 1] == (if location == "" then MetadataSeparator else location)
    ensures location != "" ==> r[|r| - 2] == MetadataSeparator
  {
    [frontMatter]
    + (if body.Some? then [body.value] else [])
    + [MetadataSeparator]
    + (if location != "" then [location] else [])
  }

  /** Writing the fragments one after another. */
  function Concat(parts: seq<string>): string {
    if |parts| == 0 then "" else parts[0] + Concat(parts[1..])
  }

  /** Writing two lists of fragments in turn writes their concatenation:
      the file holds the fragments in order, none dropped or repeated. */
  lemma {:induction false} ConcatAppend(a: seq<string>, b: seq<string>)
    ensures Concat(a + b) == Concat(a) + Concat(b)
    decreases |a|
  {
    if |a| > 0 {
      assert (a + b)[1..] == a[1..] + b;
      ConcatAppend(a[1..], b);
      ConcatAssociative(a[0], Concat(a[1..]), Concat(b));
    } else {
      assert a + b == b;
    }
  }

  /** The written document: the front matter first, then the body (nothing
      when the text stage raised), the separator, and the location line,
      which is there exactly when it is non-empty. */
  lemma DocumentLayout(frontMatter: string, body: Option<string>, location: string)
    ensures Concat(Fragments(frontMatter, body, location)) == frontMatter + (body.GetOr("") + MetadataSeparator + location)
    ensures location == "" <==> |Fragments(frontMatter, body, location)| == (if body.Some? then 3 else 2)
  {
    var parts := Fragments(frontMatter, body, location);
    var tail := [MetadataSeparator] + (if location != "" then [location] else []);
    assert Concat(tail) == MetadataSeparator + location by {
      if location != "" {
        assert tail[1..] == [location];
        assert [location][1..] == [];
        assert Concat([location]) == location;
      } else {
        assert tail[1..] == [];
      }
    }
    if body.Some? {
      assert parts == [frontMatter, body.value] + tail;
      assert parts[1..] == [body.value] + tail;
      assert parts[1..][1..] == tail;
    } else {
      assert parts == [frontMatter] + tail;
      assert parts[1..] == tail;
    }
  }
}
