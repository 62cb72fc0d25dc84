/** The second half of `create_day_images` in gen.py: one story card per
    day, in the order of the grouped dictionary, each saved under the
    day's raw date string, and the list of saved paths.

    Drawing is modelled as the list of text commands a card receives, each
    with its position; a title or date line is centred, which the source
    computes from a width the font measures, so its position records only
    that it is centred and its line. */
module DayCards {
  import opened DayGrouping
  import DayOfWeek
  import Calendar

  /** The card size, an Instagram story. */
  const Width: int := 1080
  const Height: int := 1920

  const TitleY: int := 180
  const DateY: int := 250
  const EventX: int := 30
  const FirstEventY: int := 380
  const EventSpacing: int := 70

  /** The bullet that starts each event line. The source spells it as the
      three characters a UTF-8 bullet becomes when it is read as
      Windows-1252; nothing below depends on its value. */
  const Bullet: string := "\U{E2}\U{20AC}\U{A2}"

  const ImageSuffix: string := "_events.png"

  datatype Position = Centered(y: int) | At(x: int, y: int)

  datatype DrawCommand = DrawText(position: Position, text: string)

  /** A saved card: the path it is saved under and what was drawn on it. */
  datatype DayImage = DayImage(path: string, commands: seq<DrawCommand>)

  function TitleText(dayOfWeek: string): string {
    dayOfWeek + "'s Events:"
  }

  function DateLine(date: string): string {
    "Date: " + date
  }

  function EventLine(event: Event): string {
    Bullet + " " + event.title + " - " + event.time
  }

  /** The line the `k`-th event of a card is drawn on. */
  function EventY(k: nat): int {
    FirstEventY + EventSpacing * k
  }

  function ImagePath(date: string): string {
    date + ImageSuffix
  }

  /** The left edge that centres a text `textWidth` wide: the margins left
      and right of it are equal. */
  function CenteredX(textWidth: int): (x: real)
    ensures x + textWidth as real + x == Width as real
  {
    (Width - textWidth) as real / 2.0
  }

  // ---------------------------------------------------------------------
  // What a card and the whole run produce, as closed forms.

  /** The event lines of a card, the `k`-th at (30, 380 + 70 k). */
  function EventLines(eventsForDay: seq<Event>): seq<DrawCommand> {
    seq(|eventsForDay|, k requires 0 <= k < |eventsForDay| =>
      DrawText(At(EventX, EventY(k)), EventLine(eventsForDay[k])))
  }

  /** The title, the date line and the event lines of the card for `date`. */
  function DayCard(date: string, eventsForDay: seq<Event>): seq<DrawCommand> {
    [DrawText(Centered(TitleY), TitleText(DayOfWeek.GetDayOfWeek(date))),
     DrawText(Centered(DateY), DateLine(date))]
    + EventLines(eventsForDay)
  }

  /** The card saved for `date`: its path and its drawing. */
  function DayImageFor(events: seq<Event>, date: string): DayImage {
    DayImage(ImagePath(date), DayCard(date, Bucket(events, date)))
  }

  /** `f` applied to each element of `xs`, in order. */
  function Map<A, B>(f: A -> B, xs: seq<A>): (ys: seq<B>)
    ensures |ys| == |xs| && forall k :: 0 <= k < |xs| ==> ys[k] == f(xs[k])
  {
    seq(|xs|, k requires 0 <= k < |xs| => f(xs[k]))
  }

  /** Mapping one more element adds its image after the others. */
  lemma MapExtend<A, B>(f: A -> B, xs: seq<A>, i: nat)
    requires i < |xs|
    ensures Map(f, xs[..i + 1]) == Map(f, xs[..i]) + [f(xs[i])]
  {
  }

  /** The cards of `dates`, one per date, in order. */
  function DayImagesOf(events: seq<Event>, dates: seq<string>): seq<DayImage> {
    Map(date => DayImageFor(events, date), dates)
  }

  /** The cards of all days, in key order. */
  function DayImages(events: seq<Event>): seq<DayImage> {
    DayImagesOf(events, DistinctDates(events))
  }

  /** The paths of the cards of `dates`, in order. */
  function ImagePathsOf(dates: seq<string>): seq<string> {
    Map(ImagePath, dates)
  }

  /** The paths `create_day_images` returns, in key order. */
  function ImagePaths(events: seq<Event>): seq<string> {
    ImagePathsOf(DistinctDates(events))
  }

  // ---------------------------------------------------------------------
  // The loops of gen.py:35-80.

  /** Draws one card: the title, the date and the events with a running
      `y` that starts at 380 and grows by 70 per event. */
  method RenderDayCard(date: string, eventsForDay: seq<Event>) returns (commands: seq<DrawCommand>)
    ensures commands == DayCard(date, eventsForDay)
  {
    var dayOfWeek := DayOfWeek.GetDayOfWeek(date);
    var heading := [DrawText(Centered(TitleY), TitleText(dayOfWeek)),
                    DrawText(Centered(DateY), DateLine(date))];
    commands := heading;
    var y := FirstEventY;
    var i := 0;
    while i < |eventsForDay|
      invariant 0 <= i <= |eventsForDay|
      invariant y == EventY(i)
      invariant commands == heading + EventLines(eventsForDay[..i])
    {
      EventLinesExtend(eventsForDay, i);
      commands := commands + [DrawText(At(EventX, y), EventLine(eventsForDay[i]))];
      y := y + EventSpacing;
      i := i + 1;
    }
    assert eventsForDay[..i] == eventsForDay;
  }

  /** Drawing one more event adds its line after the others. */
  lemma EventLinesExtend(eventsForDay: seq<Event>, i: nat)
    requires i < |eventsForDay|
    ensures EventLines(eventsForDay[..i + 1])
         == EventLines(eventsForDay[..i]) + [DrawText(At(EventX, EventY(i)), EventLine(eventsForDay[i]))]
  {
  }

  /** `create_day_images(events)`: groups the events, draws and saves one
      card per day in key order, and returns the saved paths. */
  method CreateDayImages(events: seq<Event>) returns (images: seq<DayImage>, paths: seq<string>)
    ensures images == DayImages(events)
    ensures paths == ImagePaths(events)
  {
    var keys, days := GroupByDate(events);
    images, paths := [], [];
    var i := 0;
    while i < |keys|
      invariant 0 <= i <= |keys|
      invariant images == DayImagesOf(events, keys[..i])
      invariant paths == ImagePathsOf(keys[..i])
    {
      var date := keys[i];
      var commands := RenderDayCard(date, days[date]);
      var imagePath := ImagePath(date);
      assert DayImage(imagePath, commands) == DayImageFor(events, date);
      MapExtend(d => DayImageFor(events, d), keys, i);
      MapExtend(ImagePath, keys, i);
      images := images + [DayImage(imagePath, commands)];
      paths := paths + [imagePath];
      i := i + 1;
    }
    assert keys[..i] == keys;
  }

  // ---------------------------------------------------------------------
  // Properties of the cards and paths.

  /** The title reads "Unknown Day's Events:" exactly when the card's date,
      in the default year, does not parse. */
  lemma TitleIsUnknownExactlyWhenUnparsed(date: string, eventsForDay: seq<Event>)
    ensures DayCard(date, eventsForDay)[0].position == Centered(TitleY)
    ensures DayCard(date, eventsForDay)[0].text == "Unknown Day's Events:"
        <==> DayOfWeek.ParseDate(date + " " + DayOfWeek.DefaultYear).None?
  {
    var dayOfWeek := DayOfWeek.GetDayOfWeek(date);
    if dayOfWeek != DayOfWeek.UnknownDay {
      WeekdayIsNotUnknown(dayOfWeek, TitleText(dayOfWeek));
    }
  }

  /** Otherwise the title names the weekday of the parsed date. */
  lemma TitleNamesTheWeekday(date: string, eventsForDay: seq<Event>, year: int, month: int, day: int)
    requires DayOfWeek.ParseDate(date + " " + DayOfWeek.DefaultYear) == DayOfWeek.Some((year, month, day))
    ensures Calendar.IsValidDate(year, month, day)
    ensures DayCard(date, eventsForDay)[0].text
         == Calendar.WeekdayNames[Calendar.Weekday(year, month, day)] + "'s Events:"
  {
  }

  /** The first command of a card is its title, centred at y = 180, naming
      the weekday `w` the date resolves to. */
  lemma CardTitle(date: string, eventsForDay: seq<Event>, w: string)
    requires DayOfWeek.GetDayOfWeek(date) == w
    ensures DayCard(date, eventsForDay)[0] == DrawText(Centered(TitleY), w + "'s Events:")
  {
  }

  /** A card whose date falls on a Monday is titled "Monday's Events:". */
  lemma MondayCardTitle(date: string, eventsForDay: seq<Event>)
    requires DayOfWeek.GetDayOfWeek(date) == "Monday"
    ensures DayCard(date, eventsForDay)[0].text == "Monday's Events:"
  {
    CardTitle(date, eventsForDay, "Monday");
    assert "Monday" + "'s Events:" == "Monday's Events:" by {
      MondayTitle();
    }
  }

  /** The title text for Monday, kept apart from `MondayCardTitle` so that
      the verifier compares the two string literals without also expanding
      the date parser on the card's date. */
  lemma MondayTitle()
    ensures TitleText("Monday") == "Monday's Events:"
  {
  }

  /** The card for "3 June" is titled "Monday's Events:". */
  lemma JuneThirdCardTitle(eventsForDay: seq<Event>)
    ensures DayCard("3 June", eventsForDay)[0].text == "Monday's Events:"
  {
    DayOfWeek.JuneThirdIsMonday();
    MondayCardTitle("3 June", eventsForDay);
  }

  /** No weekday name followed by "'s Events:" reads "Unknown Day's Events:". */
  lemma WeekdayIsNotUnknown(w: string, text: string)
    requires w in Calendar.WeekdayNames && text == w + "'s Events:"
    ensures text != "Unknown Day's Events:"
  {
    assert text[0] == w[0];
  }

  /** The card has the title, the date line and one line per event, in the
      bucket's order, each at x = 30 and 70 below the one before. */
  lemma {:induction false} EventLinesAreEvenlySpaced(date: string, eventsForDay: seq<Event>, k: nat)
    requires k < |eventsForDay|
    ensures var card := DayCard(date, eventsForDay);
      |card| == 2 + |eventsForDay|
      && card[1] == DrawText(Centered(DateY), "Date: " + date)
      && card[2 + k] == DrawText(At(30, 380 + 70 * k), EventLine(eventsForDay[k]))
      && (k > 0 ==> card[2 + k].position.y == card[1 + k].position.y + 70)
  {
    var card := DayCard(date, eventsForDay);
    assert card[2 + k] == EventLines(eventsForDay)[k];
    if k > 0 {
      assert card[1 + k] == EventLines(eventsForDay)[k - 1];
    }
  }

  /** The canvas is 1920 high, so only the first 22 event lines of a card
      start on it. */
  lemma EventLinesOnCanvas(k: nat)
    ensures DateY < EventY(k)
    ensures EventY(k) < Height <==> k < 22
  {
  }

  /** Distinct dates give distinct paths. */
  lemma ImagePathIsInjective(d1: string, d2: string)
    requires ImagePath(d1) == ImagePath(d2)
    ensures d1 == d2
  {
    assert d1 == ImagePath(d1)[..|d1|];
    assert d2 == ImagePath(d2)[..|d2|];
  }

  /** One path per bucket, each named after its date, no two alike, as many
      as there are distinct dates. */
  lemma ImagePathsAreDistinct(events: seq<Event>)
    ensures var keys, paths := DistinctDates(events), ImagePaths(events);
      |paths| == |keys| == |DateSet(events)|
      && (forall k :: 0 <= k < |keys| ==> paths[k] == keys[k] + "_events.png")
      && NoDuplicates(paths)
  {
    var keys, paths := DistinctDates(events), ImagePaths(events);
    DistinctDatesHaveNoDuplicates(events);
    KeyCountIsDateCount(events);
    forall i, j | 0 <= i < j < |paths| ensures paths[i] != paths[j] {
      if paths[i] == paths[j] {
        ImagePathIsInjective(keys[i], keys[j]);
      }
    }
  }

  /** Line `m` of `image` shows `event`, at (30, 380 + 70 m). */
  predicate ShowsEventOnLine(image: DayImage, m: nat, event: Event) {
    2 + m < |image.commands|
    && image.commands[2 + m] == DrawText(At(EventX, EventY(m)), EventLine(event))
  }

  /** Every event is drawn on the card of its own date, saved under that
      date's path: its bucket's line `m` shows it. */
  lemma EveryEventIsDrawn(events: seq<Event>, i: nat)
    requires i < |events|
    ensures var images := DayImages(events);
      exists k: nat, m: nat :: k < |images| && images[k].path == ImagePath(events[i].date)
        && ShowsEventOnLine(images[k], m, events[i])
  {
    var keys, images := DistinctDates(events), DayImages(events);
    var date := events[i].date;
    EventInItsOwnBucket(events, i, date);
    var k :| 0 <= k < |keys| && keys[k] == date;
    var bucket := Bucket(events, date);
    var m :| 0 <= m < |bucket| && bucket[m] == events[i];
    assert images[k] == DayImageFor(events, date);
    EventLinesAreEvenlySpaced(date, bucket, m);
    assert ShowsEventOnLine(images[k], m, events[i]);
  }

  /** Events dated d1, d2, d1 give two cards, for d1 then d2: the first
      lists the first and third events, the second the middle one. */
  lemma RepeatedFirstDateCards(a: Event, b: Event, c: Event)
    requires a.date == c.date && a.date != b.date
    ensures var images := DayImages([a, b, c]);
      |images| == 2
      && images[0] == DayImage(ImagePath(a.date), DayCard(a.date, [a, c]))
      && images[1] == DayImage(ImagePath(b.date), DayCard(b.date, [b]))
  {
    var events := [a, b, c];
    RepeatedFirstDate(a, b, c);
    var keys := DistinctDates(events);
  }

  /** The paths of the cards for events dated d1, d2, d1. */
  lemma RepeatedFirstDatePaths(a: Event, b: Event, c: Event)
    requires a.date == c.date && a.date != b.date
    ensures ImagePaths([a, b, c]) == [ImagePath(a.date), ImagePath(b.date)]
  {
    RepeatedFirstDate(a, b, c);
    var keys := DistinctDates([a, b, c]);
  }

  /** The number of lines on each card for events dated d1, d2, d1. */
  lemma RepeatedFirstDateSizes(a: Event, b: Event, c: Event)
    requires a.date == c.date && a.date != b.date
    ensures var images := DayImages([a, b, c]);
      |images| == 2 && |images[0].commands| == 2 + 2 && |images[1].commands| == 2 + 1
  {
    RepeatedFirstDateCards(a, b, c);
    CardSize(a.date, [a, c]);
    CardSize(b.date, [b]);
  }

  /** Two events on "3 June" and one on "10 June" give two cards, saved as
      "3 June_events.png" and "10 June_events.png", the first listing two
      events and the second one; `JuneThirdCardTitle` gives the first its
      title "Monday's Events:". */
  lemma TwoDayScenario(a: Event, b: Event, c: Event)
    requires a.date == "3 June" && b.date == "10 June" && c.date == "3 June"
    ensures ImagePaths([a, b, c]) == ["3 June_events.png", "10 June_events.png"]
    ensures var images := DayImages([a, b, c]);
      |images| == 2 && |images[0].commands| == 2 + 2 && |images[1].commands| == 2 + 1
  {
    var d1, d2 := a.date, b.date;
    assert d1 != d2 by { assert d1[0] != d2[0]; }
    RepeatedFirstDatePaths(a, b, c);
    assert ImagePath(d1) == "3 June_events.png";
    assert ImagePath(d2) == "10 June_events.png";
    RepeatedFirstDateSizes(a, b, c);
  }

  /** A card draws two heading lines and one line per event: the title
      centred at y = 180, then the date line centred at y = 250. */
  lemma CardSize(date: string, eventsForDay: seq<Event>)
    ensures |DayCard(date, eventsForDay)| == 2 + |eventsForDay|
    ensures DayCard(date, eventsForDay)[0]
         == DrawText(Centered(180), DayOfWeek.GetDayOfWeek(date) + "'s Events:")
    ensures DayCard(date, eventsForDay)[1] == DrawText(Centered(250), "Date: " + date)
  {
  }
}
