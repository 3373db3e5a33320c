/**
 The records of the application that the reading prompt reads: trackers from
 the tracker registry, the manga record, its chapters, its existing track
 links, tracker search results and library categories. Only the fields the
 prompt logic consults are kept; ids are Kotlin `Long`s, written as `int`.
 */
module Entities {

  /** A tracking-service integration as the tracker registry lists it. */
  datatype Tracker = Tracker(id: int, name: string, isLoggedIn: bool)

  datatype Manga = Manga(id: int, title: string, favorite: bool, skipTracking: bool)

  datatype Chapter = Chapter(id: int, mangaId: int, read: bool)

  /** A link between a manga and a tracker (one row of the track table). */
  datatype Track = Track(id: int, mangaId: int, trackerId: int)

  /** One hit of a tracker search. */
  datatype TrackSearch = TrackSearch(remoteId: int, title: string)

  datatype Category = Category(id: int, name: string)
}
