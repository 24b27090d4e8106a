/** The fixed station table of server/src/stations.ts and the lookup `checkStreamId` of server/src/stream.ts. */
module Stations {
  import opened Wrappers

  type StationId = string

  datatype Station = Station(url: string, id: StationId, name: string)

  /** The stations the relay serves, in the order of the source table. */
  const Table: seq<Station> := [
    Station("http://bbcmedia.ic.llnwd.net/stream/bbcmedia_6music_mf_p", "bbc6", "BBC6"),
    Station("https://dublab.out.airtime.pro/dublab_a", "dublab", "Dublab"),
    Station("https://kcrw.streamguys1.com/kcrw_192k_mp3_e24", "kcrw", "KCRW"),
    Station("http://s-00.wefunkradio.com:81/wefunk64.mp3", "wefunk", "WEFUNK"),
    Station("https://balamii.out.airtime.pro:8000/balamii_a", "balamii", "Balamii"),
    Station("http://n10as.out.airtime.pro:8000/n10as_a", "n10as", "n10.as"),
    Station("https://image.block.fm/uploads/audio/002c2686-2ee1-485b-b1af-475986696bab.mp3", "blockfm", "block.fm"),
    Station("https://wxpnhi.xpn.org/xpnhi-nopreroll", "wxpn", "WXPN"),
    Station("http://icecast.vrtcdn.be/stubru-high.mp3", "stubru", "StuBru")
  ]

  /** `stations.find(...)`: the first station with the given id. */
  function Find(stations: seq<Station>, id: StationId): (r: Option<Station>)
    ensures r.Some? <==> exists i :: 0 <= i < |stations| && stations[i].id == id
    ensures r.Some? ==> r.value.id == id && r.value in stations
    // the station returned is the first one with that id
    ensures r.Some? ==> exists i :: 0 <= i < |stations| && stations[i] == r.value && forall j :: 0 <= j < i ==> stations[j].id != id
  {
    if stations == [] then None
    else if stations[0].id == id then Some(stations[0])
    else
      var r := Find(stations[1..], id);
      assert forall i :: 1 <= i < |stations| ==> stations[i] == stations[1..][i - 1];
      if r.Some? then
        var k :| 0 <= k < |stations[1..]| && stations[1..][k] == r.value && forall j :: 0 <= j < k ==> stations[1..][j].id != id;
        assert stations[k + 1] == r.value && forall j :: 0 <= j < k + 1 ==> stations[j].id != id;
        r
      else r
  }

  /** `checkStreamId(id)`: the station with that id in the table, if any. */
  function CheckStreamId(id: StationId): (r: Option<Station>)
    ensures r.Some? <==> exists i :: 0 <= i < |Table| && Table[i].id == id
    ensures r.Some? ==> r.value.id == id && r.value in Table
  {
    Find(Table, id)
  }
}
