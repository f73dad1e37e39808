/** The event record, keeping the fields that the query engine filters on and that
    the list view displays. */
module EventTypes {

  datatype Event = Event(
    idZaznamu: int,
    nazevUdalosti: string,
    idUdalosti: string,
    datumZacatek: string,
    popisUdalosti: string,
    mistoKonani: string,
    organizator: string,
    kategorieNazev: string,
    kategorieRizika: string,
    idOrganuVerejneMoci: string,
    zkratkaInformacnihoSystemu: string,
    stavUdalosti: string)
}
