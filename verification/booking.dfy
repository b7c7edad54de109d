/**
 * The extractor as a whole (`extractBookingInfo`, server/bookingService.js lines 50-175) and the
 * record a booking is stored as (`saveBooking`, lines 197-207).
 */
module Booking {
  import opened Optional
  import opened Chars
  import opened Scan
  import opened Payload
  import opened Names
  import opened Services
  import opened Clock
  import opened Schedule
  import opened Requests
  import opened IsoDate

  /** What the extractor returns. */
  datatype BookingInfo = BookingInfo(
    name: Option<string>,
    customerPhone: Option<Json>,
    service: string,
    date: Option<string>,
    time: Option<string>,
    specialRequests: Option<string>)

  /** The row inserted into the `bookings` table. */
  datatype BookingRecord = BookingRecord(
    businessId: Json,
    customerName: Option<string>,
    customerPhone: Option<Json>,
    serviceIds: seq<string>,
    appointmentDate: Option<string>,
    appointmentTime: Option<string>,
    specialRequests: Option<string>,
    callId: Json,
    status: string)


  /**
   * The name: the summary rules first, and the transcript rules only when those find nothing.
   * Only then is the transcript read, and reading it fails when it is not a string.
   */
  function ExtractName(summary: string, transcript: Json): (r: Result<Option<string>, string>)
    ensures r.Failure? <==> SummaryName(summary).None? && !transcript.JStr?
    ensures SummaryName(summary).Some? ==> r == Success(SummaryName(summary))
    ensures SummaryName(summary).None? && transcript.JStr? ==> r == Success(TranscriptName(transcript.s))
    ensures r.Success? && r.value.Some? ==> |r.value.value| >= 2 && AllLetters(r.value.value)
  {
    match SummaryName(summary)
    case Some(n) => Success(Some(n))
    case None =>
      match transcript
      case JStr(t) =>
        Success(TranscriptName(t))
      case _ => Failure("transcript.match is not a function")
  }

  /** Clock text as it is stored: digits and colons, ending in `:00` seconds. */
  predicate StoredTime(t: Option<string>) {
    t.Some? && |t.value| >= 8 && DigitsAndColons(t.value) && t.value[|t.value| - 3..] == ":00"
  }

  /** The fields the extractor reads from the summary text. */
  function FromSummary(summary: string, name: Option<string>, phone: Option<Json>): (info: BookingInfo)
    ensures info.name == name && info.customerPhone == phone
    ensures info.service == ExtractService(summary) && info.service in Vocabulary
    ensures info.date == ExtractDate(summary) && info.time == ExtractTime(summary)
    ensures info.specialRequests == ExtractRequests(summary)
    ensures info.date.Some? ==> |info.date.value| >= 14
    ensures info.time.Some? ==> StoredTime(ConvertTo24HourTime(info.time))
    ensures info.specialRequests.Some? ==> Within(info.specialRequests.value, summary)
  {
    var time := ExtractTime(summary);
    assert time.Some? ==> StoredTime(ConvertTo24HourTime(time)) by {
      if time.Some? {
        ExtractedTimeConverts(summary);
      }
    }
    BookingInfo(name, phone, ExtractService(summary), ExtractDate(summary), time, ExtractRequests(summary))
  }

  /**
   * `extractBookingInfo`: it fails when the payload is `null`, when the summary is not a string,
   * and when the transcript has to be read and is not a string.
   */
  function ExtractBookingInfo(data: Json): (r: Result<BookingInfo, string>)
    ensures r.Failure? <==>
      data == JNull || !Unwrap(data).value.summary.JStr?
      || (SummaryName(Unwrap(data).value.summary.s).None? && !Unwrap(data).value.transcript.JStr?)
    ensures r.Success? ==>
      var f := Unwrap(data).value;
      r.value.customerPhone == f.customerNumber
      && r.value.name == (if SummaryName(f.summary.s).Some? then SummaryName(f.summary.s)
                          else TranscriptName(f.transcript.s))
    ensures r.Success? ==>
      var summary := Unwrap(data).value.summary.s;
      r.value.service == ExtractService(summary) && r.value.date == ExtractDate(summary)
      && r.value.time == ExtractTime(summary) && r.value.specialRequests == ExtractRequests(summary)
    ensures r.Success? ==> r.value.service in Vocabulary
    ensures r.Success? && r.value.time.Some? ==> StoredTime(ConvertTo24HourTime(r.value.time))
    ensures r.Success? && r.value.name.Some? ==> |r.value.name.value| >= 2 && AllLetters(r.value.name.value)
  {
    match Unwrap(data)
    case Failure(e) => Failure(e)
    case Success(f) =>
      match f.summary
      case JStr(summary) =>
        (match ExtractName(summary, f.transcript)
         case Failure(e) => Failure(e)
         case Success(name) => Success(FromSummary(summary, name, f.customerNumber)))
      case _ => Failure("summary.match is not a function")
  }

  /** `saveBooking`'s insert: the service as a one-element list, date and time normalised. */
  function ToRecord(businessId: Json, info: BookingInfo, callId: Json, parse: string -> Option<CalendarDate>): (r: BookingRecord)
    ensures r.businessId == businessId && r.callId == callId
    ensures r.serviceIds == [info.service] && r.status == "confirmed"
    ensures r.customerName == info.name && r.customerPhone == info.customerPhone
    ensures r.specialRequests == info.specialRequests
    ensures r.appointmentTime == ConvertTo24HourTime(info.time)
    ensures r.appointmentDate == ConvertToIsoDate(info.date, parse)
    ensures r.appointmentTime.None? <==> info.time.None? || info.time == Some("")
    ensures info.time.Some? && FirstFrom(info.time.value, 0, TimeAt).Some? ==> StoredTime(r.appointmentTime)
    ensures r.appointmentDate.Some? <==>
      info.date.Some? && info.date.value != "" && parse(StripOrdinals(info.date.value)).Some?
    ensures r.appointmentDate.Some? ==> ParseIso(r.appointmentDate.value) == parse(StripOrdinals(info.date.value))
  {
    BookingRecord(
      businessId, info.name, info.customerPhone, [info.service],
      ConvertToIsoDate(info.date, parse), ConvertTo24HourTime(info.time),
      info.specialRequests, callId, "confirmed")
  }

  /**
   * A call's booking as it is stored: extraction, then `saveBooking`'s mapping. Its time, when
   * one was found, is in `HH:MM:00` form; its date, when one was found and parsed, is the ISO
   * form of exactly what the parser read.
   */
  function StoredBooking(data: Json, businessId: Json, callId: Json, parse: string -> Option<CalendarDate>): (r: Result<BookingRecord, string>)
    ensures r.Failure? <==> ExtractBookingInfo(data).Failure?
    ensures r.Success? ==>
      var info := ExtractBookingInfo(data).value;
      (info.time.Some? <==> r.value.appointmentTime.Some?)
      && (info.time.Some? ==> StoredTime(r.value.appointmentTime))
      && (r.value.appointmentDate.Some? <==> info.date.Some? && parse(StripOrdinals(info.date.value)).Some?)
      && (r.value.appointmentDate.Some? ==>
            info.date.Some? && ParseIso(r.value.appointmentDate.value) == parse(StripOrdinals(info.date.value)))
      && r.value.serviceIds == [info.service] && info.service in Vocabulary
      && r.value.status == "confirmed"
      && r.value.businessId == businessId && r.value.callId == callId
  {
    match ExtractBookingInfo(data)
    case Failure(e) => Failure(e)
    case Success(info) =>
      var rec := ToRecord(businessId, info, callId, parse);
      assert info.time.Some? ==> StoredTime(rec.appointmentTime);
      assert info.time.None? ==> rec.appointmentTime.None?;
      Success(rec)
  }

  /**
   * The stored date text is fixed, not only its reading: it is the one ISO text of the date the
   * parser read.
   */
  lemma StoredDateIsIso(data: Json, businessId: Json, callId: Json, parse: string -> Option<CalendarDate>)
    ensures StoredBooking(data, businessId, callId, parse).Success? ==>
      var r := StoredBooking(data, businessId, callId, parse).value;
      var info := ExtractBookingInfo(data).value;
      r.appointmentDate.Some? ==>
        info.date.Some? && parse(StripOrdinals(info.date.value)).Some?
        && r.appointmentDate.value == FormatIso(parse(StripOrdinals(info.date.value)).value)
  {
    var s := StoredBooking(data, businessId, callId, parse);
    if s.Success? && s.value.appointmentDate.Some? {
      var info := ExtractBookingInfo(data).value;
      IsoTextUnique(s.value.appointmentDate.value, parse(StripOrdinals(info.date.value)).value);
    }
  }
}
